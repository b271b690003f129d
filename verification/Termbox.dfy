/**
 termbox2.h's renderer in its own form: cell buffers changed in place, cached attributes
 and cursor, output queued until it is flushed. Each method is tied to the function of the
 same name in TermboxSpec; TermboxPaint and TermboxRuns say what those functions achieve.
 */
module Termbox {
  import opened Wrappers
  import opened Terminal
  import opened TermboxSpec
  import opened TermboxPaint

  /** A cell buffer as rows. */
  function Rows(a: array2<Cell>): (r: seq<seq<Cell>>)
    reads a
    ensures Sized(r, a.Length1, a.Length0)
    ensures forall y, x :: 0 <= y < a.Length0 && 0 <= x < a.Length1 ==> r[y][x] == a[y, x]
  {
    seq(a.Length0, y requires 0 <= y < a.Length0 reads a =>
      seq(a.Length1, x requires 0 <= x < a.Length1 reads a => a[y, x]))
  }

  lemma {:induction false} SameGrid<T>(a: seq<seq<T>>, b: seq<seq<T>>, w: int, h: int)
    requires Sized(a, w, h) && Sized(b, w, h)
    requires forall y, x :: 0 <= y < h && 0 <= x < w ==> a[y][x] == b[y][x]
    ensures a == b
  {
    forall y | 0 <= y < h
      ensures a[y] == b[y]
    {
    }
  }

  method CellSet(c: array2<Cell>, x: nat, y: nat, v: Cell)
    requires y < c.Length0 && x < c.Length1
    modifies c
    ensures Rows(c) == old(Rows(c))[y := old(Rows(c))[y][x := v]]
  {
    ghost var before := Rows(c);
    c[y, x] := v;
    SameGrid(Rows(c), before[y := before[y][x := v]], c.Length1, c.Length0);
  }

  method CellbufClear(c: array2<Cell>, fg: Attr, bg: Attr)
    modifies c
    ensures Rows(c) == Uniform(c.Length1, c.Length0, Cell(SPACE, fg, bg))
    ensures forall y, x :: 0 <= y < c.Length0 && 0 <= x < c.Length1 ==> c[y, x] == Cell(0x20, fg, bg)
  {
    for y := 0 to c.Length0
      invariant forall j, i :: 0 <= j < y && 0 <= i < c.Length1 ==> c[j, i] == Cell(SPACE, fg, bg)
    {
      for x := 0 to c.Length1
        invariant forall j, i :: 0 <= j < y && 0 <= i < c.Length1 ==> c[j, i] == Cell(SPACE, fg, bg)
        invariant forall i :: 0 <= i < x ==> c[y, i] == Cell(SPACE, fg, bg)
      {
        c[y, x] := Cell(SPACE, fg, bg);
      }
    }
    SameGrid(Rows(c), Uniform(c.Length1, c.Length0, Cell(SPACE, fg, bg)), c.Length1, c.Length0);
  }

  /** cellbuf_resize to a different size: allocate, clear, and copy the overlap. */
  method CellbufResize(c: array2<Cell>, w: nat, h: nat, fg: Attr, bg: Attr) returns (r: array2<Cell>)
    ensures fresh(r) && r.Length0 == h && r.Length1 == w
    ensures Rows(r) == Resized(Rows(c), c.Length1, c.Length0, w, h, Cell(SPACE, fg, bg))
    ensures forall y, x :: 0 <= y < h && 0 <= x < w ==>
              r[y, x] == if y < c.Length0 && x < c.Length1 then c[y, x] else Cell(0x20, fg, bg)
  {
    r := new Cell[h, w];
    CellbufClear(r, fg, bg);
    var blank := Cell(SPACE, fg, bg);
    assert forall j, i :: 0 <= j < h && 0 <= i < w ==> r[j, i] == Rows(r)[j][i] == blank;
    var minw := if w < c.Length1 then w else c.Length1;
    var minh := if h < c.Length0 then h else c.Length0;
    for x := 0 to minw
      invariant forall j, i :: 0 <= j < h && 0 <= i < w ==> r[j, i] == if i < x && j < minh then c[j, i] else blank
    {
      for y := 0 to minh
        invariant forall j, i :: 0 <= j < h && 0 <= i < w ==>
                                   r[j, i] == if (i < x && j < minh) || (i == x && j < y) then c[j, i] else blank
      {
        r[y, x] := c[y, x];
      }
    }
    SameGrid(Rows(r), Resized(Rows(c), c.Length1, c.Length0, w, h, blank), w, h);
  }

  class Renderer {
    const wcwidth: WidthFn
    var width: int
    var height: int
    var back: array2<Cell>
    var front: array2<Cell>
    var lastX: int
    var lastY: int
    var cursorX: int
    var cursorY: int
    var fg: Attr
    var bg: Attr
    var lastFg: Attr
    var lastBg: Attr
    var out: Output
    ghost var tty: Term  // the other end of the file descriptor

    ghost predicate Valid()
      reads this
    {
      back != front && back.Length0 == front.Length0 && back.Length1 == front.Length1
    }

    ghost function State(): (s: Tb)
      requires Valid()
      reads this, back, front
      ensures Shape(s)
    {
      Tb(width, height, front.Length1, front.Length0, Rows(back), Rows(front), lastX, lastY,
         cursorX, cursorY, fg, bg, lastFg, lastBg, out, tty)
    }

    /** tb_reset and the rest of tb_init, on a terminal of w by h with arbitrary content. */
    constructor (wc: WidthFn, w: nat, h: nat)
      ensures Valid() && fresh(back) && fresh(front) && wcwidth == wc
      ensures State() == Init(wc, w, h)
    {
      wcwidth := wc;
      width, height := -1, -1;
      back, front := new Cell[0, 0], new Cell[0, 0];
      lastX, lastY, cursorX, cursorY := -1, -1, -1, -1;
      fg, bg, lastFg, lastBg := 0, 0, 0xffff, 0xffff;
      out := Empty;
      tty := Term(Uniform(w, h, Unknown), None, None);
      new;
      ghost var s0 := State();
      assert s0.back == [] && s0.front == [];
      SendClear();
      ghost var s1 := State();
      assert s1.fg == 0 && s1.bg == 0 && s1.back == [] && s1.front == [];
      InitCellbufs(w, h);
    }

    /** The last two steps of tb_init: the size is read and the buffers are made. */
    method InitCellbufs(w: nat, h: nat)
      requires Valid()
      modifies this`width, this`height, this`back, this`front
      ensures Valid() && fresh(back) && fresh(front)
      ensures var cells := Uniform(w, h, Blank(old(State())));
              State() == old(State()).(width := w, height := h, w := w, h := h, back := cells, front := cells)
    {
      width, height := w, h;
      back, front := new Cell[h, w], new Cell[h, w];
      CellbufClear(back, fg, bg);
      CellbufClear(front, fg, bg);
    }

    method Emit(c: Cmd)
      requires Valid()
      modifies this`out
      ensures Valid() && State() == TermboxSpec.Emit(old(State()), c)
    {
      out := Then(out, c);
    }

    method SendAttr(f: Attr, b: Attr)
      requires Valid()
      modifies this`out, this`lastFg, this`lastBg
      ensures Valid() && State() == TermboxSpec.SendAttr(old(State()), f, b)
    {
      if f == lastFg && b == lastBg {
        return;
      }
      Emit(SetAttr(f, b));
      lastFg := f;
      lastBg := b;
    }

    method SendCursorIf(x: int, y: int)
      requires Valid()
      modifies this`out
      ensures Valid() && State() == TermboxSpec.SendCursorIf(old(State()), x, y)
    {
      if x < 0 || y < 0 {
        return;
      }
      Emit(MoveTo(x, y));
    }

    method SendChar(x: int, y: int, ch: Rune)
      requires Valid()
      modifies this`out, this`lastX, this`lastY
      ensures Valid() && State() == TermboxSpec.SendChar(wcwidth, old(State()), x, y, ch)
    {
      if lastX != x - 1 || lastY != y {
        SendCursorIf(x, y);
      }
      lastX := x;
      lastY := y;
      Emit(Put(if Printable(wcwidth, ch) then ch else REPLACEMENT));
    }

    method Flush()
      requires Valid()
      modifies this`out, this`tty
      ensures Valid() && State() == TermboxSpec.Flush(wcwidth, old(State()))
    {
      tty := ApplyAll(wcwidth, tty, out);
      out := Empty;
    }

    method SetFront(x: nat, y: nat, c: Cell)
      requires Valid() && y < front.Length0 && x < front.Length1
      modifies front
      ensures Valid() && State() == TermboxSpec.SetFront(old(State()), x, y, c)
    {
      CellSet(front, x, y, c);
    }

    method PaintCell(x: nat, y: nat) returns (w: nat)
      requires Valid() && y < front.Length0 && x < front.Length1
      modifies this`out, this`lastX, this`lastY, this`lastFg, this`lastBg, front
      ensures Valid() && w == CellWidth(wcwidth, old(back[y, x]))
      ensures State() == TermboxSpec.PaintCell(wcwidth, old(State()), x, y)
    {
      var b := back[y, x];
      var cols := wcwidth(b.ch);
      if cols < 1 {
        cols := 1;  // wcwidth is -1 for invalid code points
      }
      w := cols;
      if b != front[y, x] {
        SetFront(x, y, b);
        SendAttr(b.fg, b.bg);
        if w > 1 && x >= front.Length1 - (w - 1) {
          SendSpaces(x, y);  // not enough room for a wide glyph
        } else {
          SendChar(x, y, b.ch);
          MarkSkipped(x, y, w);
        }
      }
    }

    method SendSpaces(x: nat, y: nat)
      requires Valid()
      modifies this`out, this`lastX, this`lastY
      ensures Valid() && State() == TermboxSpec.SendSpaces(wcwidth, old(State()), x, y)
    {
      ghost var goal := TermboxSpec.SendSpaces(wcwidth, State(), x, y);
      var i := x;
      while i < front.Length1
        invariant Valid()
        invariant goal == TermboxSpec.SendSpaces(wcwidth, State(), i, y)
      {
        SendChar(i, y, SPACE);
        i := i + 1;
      }
    }

    /** The columns that a wide glyph also covers become invalid in the front buffer. */
    method MarkSkipped(x: nat, y: nat, w: nat)
      requires Valid() && y < front.Length0 && x + w <= front.Length1
      modifies front
      ensures Valid() && State() == TermboxSpec.MarkSkipped(old(State()), x, y, 1, w)
    {
      ghost var goal := TermboxSpec.MarkSkipped(State(), x, y, 1, w);
      var i := 1;
      while i < w
        invariant Valid() && 1 <= i
        invariant goal == TermboxSpec.MarkSkipped(State(), x, y, i, w)
      {
        SetFront(x + i, y, INVALID);
        i := i + 1;
      }
    }

    method PaintRow(y: nat)
      requires Valid() && y < front.Length0
      modifies this`out, this`lastX, this`lastY, this`lastFg, this`lastBg, front
      ensures Valid() && State() == TermboxSpec.PaintRow(wcwidth, old(State()), 0, y)
    {
      ghost var goal := TermboxSpec.PaintRow(wcwidth, State(), 0, y);
      var x := 0;
      while x < front.Length1
        invariant Valid()
        invariant goal == TermboxSpec.PaintRow(wcwidth, State(), x, y)
        decreases front.Length1 - x
      {
        var w := PaintCell(x, y);
        x := x + w;
      }
    }

    /** The loops of tb_present. */
    method PaintAll()
      requires Valid()
      modifies this`out, this`lastX, this`lastY, this`lastFg, this`lastBg, front
      ensures Valid() && State() == TermboxSpec.PaintRows(wcwidth, old(State()).(lastX := -1, lastY := -1), 0)
    {
      lastX := -1;
      lastY := -1;
      ghost var goal := TermboxSpec.PaintRows(wcwidth, State(), 0);
      var y := 0;
      while y < front.Length0
        invariant Valid() && y <= front.Length0
        invariant goal == TermboxSpec.PaintRows(wcwidth, State(), y)
      {
        PaintRow(y);
        y := y + 1;
      }
    }

    /** tb_present: afterwards nothing is queued and the terminal has taken everything. */
    method Present()
      requires Valid()
      modifies this`out, this`tty, this`lastX, this`lastY, this`lastFg, this`lastBg, front
      ensures Valid() && State() == TermboxSpec.Present(wcwidth, old(State()))
      ensures WidthTable(wcwidth) && Rest(wcwidth, old(State())) && AllPaintable(wcwidth, old(State())) ==>
              Rest(wcwidth, State()) && tty.grid == Show(wcwidth, old(State()).back)
    {
      PresentFromRest(wcwidth, State());
      PaintAll();
      SendCursorIf(cursorX, cursorY);
      Flush();
    }

    /** tb_set_cell: false is TB_ERR_OUT_OF_BOUNDS. */
    method SetCell(x: int, y: int, c: Cell) returns (ok: bool)
      requires Valid()
      modifies back
      ensures Valid() && ok == InBounds(old(State()), x, y)
      ensures State() == TermboxSpec.SetCell(old(State()), x, y, c)
      ensures forall j, i :: 0 <= j < back.Length0 && 0 <= i < back.Length1 ==>
                back[j, i] == if ok && j == y && i == x then c else old(back[j, i])
    {
      if x < 0 || x >= back.Length1 || y < 0 || y >= back.Length0 {
        return false;
      }
      CellSet(back, x, y, c);
      return true;
    }

    method Clear()
      requires Valid()
      modifies back
      ensures Valid() && State() == TermboxSpec.Clear(old(State()))
      ensures forall j, i :: 0 <= j < back.Length0 && 0 <= i < back.Length1 ==> back[j, i] == Cell(0x20, fg, bg)
    {
      CellbufClear(back, fg, bg);
      SameGrid(Rows(back), Filled(old(Rows(back)), Cell(SPACE, fg, bg)), back.Length1, back.Length0);
    }

    method SetClearAttrs(f: Attr, b: Attr)
      requires Valid()
      modifies this`fg, this`bg
      ensures Valid() && State() == TermboxSpec.SetClearAttrs(old(State()), f, b)
    {
      fg := f;
      bg := b;
    }

    method SetCursor(x: int, y: int)
      requires Valid()
      modifies this`out, this`cursorX, this`cursorY
      ensures Valid() && State() == TermboxSpec.SetCursor(old(State()), x, y)
      ensures cursorX == (if x < 0 then 0 else x) && cursorY == (if y < 0 then 0 else y)
    {
      var cx := if x < 0 then 0 else x;
      var cy := if y < 0 then 0 else y;
      SendCursorIf(cx, cy);
      cursorX := cx;
      cursorY := cy;
    }

    method HideCursor()
      requires Valid()
      modifies this`cursorX, this`cursorY
      ensures Valid() && State() == TermboxSpec.HideCursor(old(State()))
    {
      cursorX := -1;
      cursorY := -1;
    }

    method SendClear()
      requires Valid()
      modifies this`out, this`tty, this`lastX, this`lastY, this`lastFg, this`lastBg
      ensures Valid() && State() == TermboxSpec.SendClear(wcwidth, old(State()))
    {
      SendAttr(fg, bg);
      Emit(Erase);
      SendCursorIf(cursorX, cursorY);
      Flush();
      lastX := -1;
      lastY := -1;
    }

    /** tb_invalidate. */
    method ResizeCellbufs()
      requires Valid()
      modifies this, front
      ensures Valid() && (front == old(front) || fresh(front)) && (back == old(back) || fresh(back))
      ensures State() == TermboxSpec.ResizeCellbufs(wcwidth, old(State()))
    {
      if !(front.Length1 == width && front.Length0 == height) {
        var w := if width < 1 then 1 else width;
        var h := if height < 1 then 1 else height;
        back := CellbufResize(back, w, h, fg, bg);
        front := CellbufResize(front, w, h, fg, bg);
      }
      CellbufClear(front, fg, bg);
      SendClear();
    }

    /** A resize event: the window has changed, and the program reads its new size. */
    method Resize(w: nat, h: nat)
      requires Valid()
      modifies this, front
      ensures Valid() && (front == old(front) || fresh(front)) && (back == old(back) || fresh(back))
      ensures State() == TermboxSpec.Resize(wcwidth, old(State()), w, h)
    {
      ghost var s := State();
      tty := WindowResized(s, w, h);
      width := w;
      height := h;
      assert State() == s.(tty := WindowResized(s, w, h), width := w, height := h);
      ResizeCellbufs();
    }
  }
}
