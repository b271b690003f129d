/** Every run of calls: tb_present always shows the back buffer, as a full redraw would. */
module TermboxRuns {
  import opened Wrappers
  import opened Terminal
  import opened TermboxSpec
  import opened TermboxRows
  import opened TermboxPaint

  // ----- every call keeps the invariant

  lemma {:induction false} ApplyAllSized(wc: WidthFn, t: Term, out: Output, w: int, h: int)
    requires Sized(t.grid, w, h)
    ensures Sized(ApplyAll(wc, t, out).grid, w, h)
  {
    if out.Then? {
      ApplyAllSized(wc, t, out.before, w, h);
      ApplySized(wc, ApplyAll(wc, t, out.before), out.last, w, h);
    }
  }

  lemma {:induction false} ApplyAllAttr(wc: WidthFn, t: Term, t': Term, out: Output)
    requires t.attr == t'.attr
    ensures ApplyAll(wc, t, out).attr == ApplyAll(wc, t', out).attr
  {
    if out.Then? {
      ApplyAllAttr(wc, t, t', out.before);
    }
  }

  /** After send_clear nothing is queued and the screen is blank in the clear attributes. */
  lemma {:induction false} SendClearScreen(wc: WidthFn, s: Tb)
    requires Screen(wc, s).attr == Some((s.lastFg, s.lastBg)) || s.fg != s.lastFg
    ensures var r := SendClear(wc, s);
            && Screen(wc, r).grid == Filled(Screen(wc, s).grid, Narrow(SPACE, s.fg, s.bg))
            && Screen(wc, r).attr == Some((s.fg, s.bg)) && r.lastFg == s.fg && r.lastBg == s.bg
            && SameBuffers(s, r) && r.width == s.width && r.height == s.height
  {
    var a := SendAttr(s, s.fg, s.bg);
    EmitScreen(wc, s, SetAttr(s.fg, s.bg));
    assert Screen(wc, a) == Screen(wc, s).(attr := Some((s.fg, s.bg)));
    var e := Emit(a, Erase);
    EmitScreen(wc, a, Erase);
    EmitScreen(wc, e, MoveTo(e.cursorX, e.cursorY));
    assert Screen(wc, SendClear(wc, s)) == Screen(wc, SendCursorIf(e, e.cursorX, e.cursorY));
  }

  /** Clearing the screen with the clear attributes puts a blank front buffer at rest. */
  lemma {:induction false} SendClearRests(wc: WidthFn, s: Tb)
    requires WidthTable(wc) && Shape(s) && SizeKnown(s) && Sized(Screen(wc, s).grid, s.w, s.h)
    requires Screen(wc, s).attr == Some((s.lastFg, s.lastBg)) || s.fg != s.lastFg
    requires forall y, x :: 0 <= y < s.h && 0 <= x < s.w ==> s.front[y][x] == Blank(s)
    ensures Rest(wc, SendClear(wc, s))
  {
    SendClearScreen(wc, s);
    var r := SendClear(wc, s);
    forall y | 0 <= y < s.h
      ensures RestRow(wc, r.front[y], Screen(wc, r).grid[y])
    {
      BlankRowRests(wc, r.front[y], Screen(wc, r).grid[y], s.fg, s.bg);
    }
  }

  lemma {:induction false} BlankRowRests(wc: WidthFn, f: seq<Cell>, g: seq<Glyph>, fg: Attr, bg: Attr)
    requires WidthTable(wc) && |f| == |g|
    requires forall x :: 0 <= x < |f| ==> f[x] == Cell(SPACE, fg, bg) && g[x] == Narrow(SPACE, fg, bg)
    ensures RestRow(wc, f, g)
  {
  }

  lemma {:induction false} InitRests(wc: WidthFn, w: nat, h: nat)
    requires WidthTable(wc)
    ensures Rest(wc, Init(wc, w, h))
  {
    var tty := Term(Uniform(w, h, Unknown), None, None);
    var s := Tb(-1, -1, 0, 0, [], [], -1, -1, -1, -1, 0, 0, 0xffff, 0xffff, Empty, tty);
    var cells := Uniform(w, h, Blank(s));
    var s' := s.(width := w, height := h, w := w, h := h, back := cells, front := cells);
    assert Screen(wc, s') == tty;
    SendClearRests(wc, s');
    assert SendClear(wc, s') == Init(wc, w, h) by {
      var a, a' := SendAttr(s, s.fg, s.bg), SendAttr(s', s'.fg, s'.bg);
      assert Screen(wc, Emit(a, Erase)) == Screen(wc, Emit(a', Erase));
    }
  }

  lemma {:induction false} ResizeCellbufsRests(wc: WidthFn, s: Tb)
    requires WidthTable(wc) && Shape(s) && Screen(wc, s).attr == Some((s.lastFg, s.lastBg))
    requires if s.w == s.width && s.h == s.height then Sized(Screen(wc, s).grid, s.w, s.h)
             else Sized(Screen(wc, s).grid, AtLeast1(s.width), AtLeast1(s.height))
    ensures Rest(wc, ResizeCellbufs(wc, s))
  {
    var same := s.w == s.width && s.h == s.height;
    var nw := if same then s.w else AtLeast1(s.width);
    var nh := if same then s.h else AtLeast1(s.height);
    var back := if same then s.back else Resized(s.back, s.w, s.h, nw, nh, Blank(s));
    var front := Uniform(nw, nh, Blank(s));
    var s' := s.(w := nw, h := nh, back := back, front := front);
    assert Screen(wc, s') == Screen(wc, s);
    SendClearRests(wc, s');
  }

  lemma {:induction false} ResizeRests(wc: WidthFn, s: Tb, w: nat, h: nat)
    requires WidthTable(wc) && Rest(wc, s)
    ensures Rest(wc, Resize(wc, s, w, h))
  {
    var tty := WindowResized(s, w, h);
    var s' := s.(tty := tty, width := w, height := h);
    ApplyAllAttr(wc, s.tty, tty, s.out);
    if w == s.width && h == s.height {
      TtySized(wc, s);
      ApplyAllSized(wc, tty, s.out, s.w, s.h);
    } else {
      ApplyAllSized(wc, tty, s.out, AtLeast1(w), AtLeast1(h));
    }
    ResizeCellbufsRests(wc, s');
  }

  /** Commands never change the size of the grid. */
  lemma {:induction false} TtySized(wc: WidthFn, s: Tb)
    requires Sized(Screen(wc, s).grid, s.w, s.h)
    ensures Sized(s.tty.grid, s.w, s.h)
  {
    ApplyAllSameSize(wc, s.tty, s.out);
  }

  lemma {:induction false} ApplyAllSameSize(wc: WidthFn, t: Term, out: Output)
    ensures var g := ApplyAll(wc, t, out).grid;
            |g| == |t.grid| && forall y :: 0 <= y < |g| ==> |g[y]| == |t.grid[y]|
  {
    if out.Then? {
      ApplyAllSameSize(wc, t, out.before);
    }
  }

  /** Whatever the cells, every call but a tb_present that cannot paint them keeps the invariant. */
  lemma {:induction false} StepRests(wc: WidthFn, s: Tb, op: Op)
    requires WidthTable(wc) && Rest(wc, s) && (op.OpPresent? ==> AllPaintable(wc, s))
    ensures Rest(wc, Step(wc, s, op))
  {
    var r := Step(wc, s, op);
    match op
    case OpSetCell(x, y, c) => assert Screen(wc, r) == Screen(wc, s);
    case OpClear => assert Screen(wc, r) == Screen(wc, s);
    case OpSetClearAttrs(fg, bg) => assert Screen(wc, r) == Screen(wc, s);
    case OpSetCursor(x, y) =>
      var cx := if x < 0 then 0 else x;
      var cy := if y < 0 then 0 else y;
      EmitScreen(wc, s, MoveTo(cx, cy));
      assert Screen(wc, r) == Screen(wc, Emit(s, MoveTo(cx, cy)));
    case OpHideCursor => assert Screen(wc, r) == Screen(wc, s);
    case OpInvalidate => ResizeCellbufsRests(wc, s);
    case OpResize(w, h) => ResizeRests(wc, s, w, h);
    case OpPresent => PresentShows(wc, s);
  }

  /** The state after n calls, from tb_init on a terminal of any size and content. */
  function After(wc: WidthFn, w: nat, h: nat, ops: seq<Op>, n: nat): (r: Tb)
    requires n <= |ops|
    ensures Shape(r)
  {
    Run(wc, Init(wc, w, h), ops[..n])
  }

  lemma {:induction false} AfterNext(wc: WidthFn, w: nat, h: nat, ops: seq<Op>, n: nat)
    requires n < |ops|
    ensures After(wc, w, h, ops, n + 1) == Step(wc, After(wc, w, h, ops, n), ops[n])
  {
    assert ops[..n + 1][..n] == ops[..n];
  }

  /** Each tb_present among the first n calls finds cells that it can paint. */
  ghost predicate EachPaintable(wc: WidthFn, w: nat, h: nat, ops: seq<Op>, n: nat)
    requires n <= |ops|
  {
    forall i :: 0 <= i < n && ops[i].OpPresent? ==> AllPaintable(wc, After(wc, w, h, ops, i))
  }

  lemma {:induction false} RunRests(wc: WidthFn, w: nat, h: nat, ops: seq<Op>, n: nat)
    requires WidthTable(wc) && n <= |ops| && EachPaintable(wc, w, h, ops, n)
    ensures Rest(wc, After(wc, w, h, ops, n))
    decreases n
  {
    if n == 0 {
      InitRests(wc, w, h);
    } else {
      RunRests(wc, w, h, ops, n - 1);
      AfterNext(wc, w, h, ops, n - 1);
      StepRests(wc, After(wc, w, h, ops, n - 1), ops[n - 1]);
    }
  }

  /** Every run whose cells are drawable. */
  ghost predicate DrawableOps(wc: WidthFn, ops: seq<Op>) {
    forall i :: 0 <= i < |ops| && ops[i].OpSetCell? ==> Drawable(wc, ops[i].c)
  }

  lemma {:induction false} StepDrawable(wc: WidthFn, s: Tb, op: Op)
    requires WidthTable(wc) && Shape(s) && AllDrawable(wc, s.back) && (op.OpSetCell? ==> Drawable(wc, op.c))
    ensures AllDrawable(wc, Step(wc, s, op).back)
  {
    match op
    case OpSetCell(x, y, c) =>
    case OpClear =>
    case OpInvalidate => ResizeDrawable(wc, s);
    case OpResize(w, h) => ResizeDrawable(wc, s.(tty := WindowResized(s, w, h), width := w, height := h));
    case _ => assert Step(wc, s, op).back == s.back;
  }

  lemma {:induction false} ResizeDrawable(wc: WidthFn, s: Tb)
    requires WidthTable(wc) && Shape(s) && AllDrawable(wc, s.back)
    ensures AllDrawable(wc, ResizeCellbufs(wc, s).back)
  {
    assert Drawable(wc, Blank(s));
  }

  lemma {:induction false} RunDrawable(wc: WidthFn, w: nat, h: nat, ops: seq<Op>, n: nat)
    requires WidthTable(wc) && DrawableOps(wc, ops) && n <= |ops|
    ensures AllPaintable(wc, After(wc, w, h, ops, n)) && AllDrawable(wc, After(wc, w, h, ops, n).back)
    decreases n
  {
    if n > 0 {
      RunDrawable(wc, w, h, ops, n - 1);
      AfterNext(wc, w, h, ops, n - 1);
      StepDrawable(wc, After(wc, w, h, ops, n - 1), ops[n - 1]);
    }
    DrawableIsPaintable(wc, After(wc, w, h, ops, n));
  }

  /** Call i shows a full rendering of the back buffer, and leaves nothing queued. */
  ghost predicate Shows(wc: WidthFn, w: nat, h: nat, ops: seq<Op>, i: nat)
    requires i < |ops|
  {
    var r := After(wc, w, h, ops, i + 1);
    r.out == Empty && r.tty.grid == Show(wc, After(wc, w, h, ops, i).back)
  }

  /** Over every run of drawable cells, each tb_present shows a full rendering of the back buffer. */
  lemma {:induction false} EveryPresentShows(wc: WidthFn, w: nat, h: nat, ops: seq<Op>, i: nat)
    requires WidthTable(wc) && DrawableOps(wc, ops) && i < |ops| && ops[i].OpPresent?
    ensures Shows(wc, w, h, ops, i)
  {
    forall j | 0 <= j < i && ops[j].OpPresent?
      ensures AllPaintable(wc, After(wc, w, h, ops, j))
    {
      RunDrawable(wc, w, h, ops, j);
    }
    RunRests(wc, w, h, ops, i);
    RunDrawable(wc, w, h, ops, i);
    AfterNext(wc, w, h, ops, i);
    PresentShows(wc, After(wc, w, h, ops, i));
  }

  // ----- the reference: redraw everything

  /** Columns before x show the row, and no later column holds a wide glyph. */
  ghost predicate DrawnTo(wc: WidthFn, b: seq<Cell>, g: seq<Glyph>, x: nat) {
    && |b| == |g|
    && (forall i :: 0 <= i < x && i < |b| ==> g[i] == ShowAt(wc, b, i))
    && (forall i :: x <= i < |b| ==> g[i] == Unknown)
    && (x < |b| ==> !Shadowed(wc, b, x))
  }

  lemma {:induction false} DrawCellScreen(wc: WidthFn, t: Term, b: seq<Cell>, x: nat, y: nat)
    requires WidthTable(wc) && y < |t.grid| && x < |b| == |t.grid[y]| && !ZeroWidth(wc, b[x])
    ensures var c := b[x];
            DrawCell(wc, t, b, x, y).grid ==
            t.grid[y := if Wide(wc, c) && x + 1 < |b| then
                          PutWide(t.grid[y], x, WideL(c.ch, c.fg, c.bg), WideR(c.ch, c.fg, c.bg))
                        else PutNarrow(t.grid[y], x, Single(wc, c))]
  {
    var c := b[x];
    var ch := if Wide(wc, c) && x + 1 >= |b| then SPACE else Shown(wc, c.ch);
    var t2 := Apply(wc, Apply(wc, t, MoveTo(x, y)), SetAttr(c.fg, c.bg));
    assert t2 == Term(t.grid, Some((x, y)), Some((c.fg, c.bg)));
    assert wc(ch) == if Wide(wc, c) && x + 1 < |b| then 2 else 1;
  }

  lemma {:induction false} DrawCellStep(wc: WidthFn, t: Term, b: seq<Cell>, x: nat, y: nat)
    requires WidthTable(wc) && y < |t.grid| && x < |b| && !ZeroWidth(wc, b[x]) && DrawnTo(wc, b, t.grid[y], x)
    ensures var r := DrawCell(wc, t, b, x, y);
            OtherRows(t.grid, r.grid, y) && DrawnTo(wc, b, r.grid[y], x + CellWidth(wc, b[x]))
  {
    DrawCellScreen(wc, t, b, x, y);
    var c := b[x];
    var g := t.grid[y];
    var g' := DrawCell(wc, t, b, x, y).grid[y];
    if Wide(wc, c) && x + 1 < |b| {
      PutWideAt(g, x, WideL(c.ch, c.fg, c.bg), WideR(c.ch, c.fg, c.bg));
      assert forall i :: 0 <= i < x ==> g'[i] == g'[..x][i] && g[i] == g[..x][i];
      assert forall i :: x + 3 <= i < |b| ==> g'[i] == g'[x + 3..][i - x - 3] && g[i] == g[x + 3..][i - x - 3];
      assert Shadowed(wc, b, x + 1);
    } else {
      assert g' == g[x := Single(wc, c)];
    }
  }

  lemma {:induction false} RedrawRowShows(wc: WidthFn, t: Term, b: seq<Cell>, x: nat, y: nat)
    requires WidthTable(wc) && y < |t.grid| && Sendable(wc, b) && DrawnTo(wc, b, t.grid[y], x)
    ensures var r := RedrawRow(wc, t, b, x, y);
            OtherRows(t.grid, r.grid, y) && r.grid[y] == ShowRow(wc, b)
    decreases |b| - x
  {
    if x < |b| {
      assert Shadowed(wc, b, x) || !ZeroWidth(wc, b[x]);
      DrawCellStep(wc, t, b, x, y);
      RedrawRowShows(wc, DrawCell(wc, t, b, x, y), b, x + CellWidth(wc, b[x]), y);
    }
  }

  lemma {:induction false} RedrawShows(wc: WidthFn, t: Term, back: seq<seq<Cell>>, y: nat)
    requires WidthTable(wc) && |t.grid| == |back| && y <= |back|
    requires forall i :: y <= i < |back| ==> Sendable(wc, back[i])
    requires forall i :: 0 <= i < y ==> t.grid[i] == ShowRow(wc, back[i])
    requires forall i :: y <= i < |back| ==> DrawnTo(wc, back[i], t.grid[i], 0)
    ensures Redraw(wc, t, back, y).grid == Show(wc, back)
    decreases |back| - y
  {
    if y < |back| {
      assert DrawnTo(wc, back[y], t.grid[y], 0);
      RedrawRowShows(wc, t, back[y], 0, y);
      RedrawShows(wc, RedrawRow(wc, t, back[y], 0, y), back, y + 1);
    }
  }

  /** tb_present, with its skipped cells, cached attributes and elided moves, leaves the
      same screen as drawing every cell of the back buffer on a screen of arbitrary content. */
  lemma {:induction false} PresentRefinesRedraw(wc: WidthFn, s: Tb)
    requires WidthTable(wc) && Rest(wc, s) && AllPaintable(wc, s)
    ensures Present(wc, s).tty.grid == Redraw(wc, Scrambled(s.tty), s.back, 0).grid
  {
    PresentShows(wc, s);
    TtySized(wc, s);
    forall y | 0 <= y < s.h
      ensures Sendable(wc, s.back[y])
    {
      PaintableIsSendable(wc, s.back[y], s.front[y]);
    }
    RedrawShows(wc, Scrambled(s.tty), s.back, 0);
  }
}
