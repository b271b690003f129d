/**
 The renderer of termbox2.h as a state and one function per call.

 `Tb` holds the fields of `struct tb_global` that rendering uses, the queued output and
 the terminal behind it. What the user sees is `Screen`: the terminal after it has taken
 the queued output.
 */
module TermboxSpec {
  import opened Wrappers
  import opened Terminal

  datatype Cell = Cell(ch: Rune, fg: Attr, bg: Attr)

  // cell_set(front_wide, &invalid, 1, -1, -1), in 32 and 16 bits
  const INVALID := Cell(0xffff_ffff, 0xffff, 0xffff)

  datatype Tb = Tb(
    width: int, height: int,          // global.width, global.height
    w: nat, h: nat,                   // dimensions of both cell buffers
    back: seq<seq<Cell>>, front: seq<seq<Cell>>,
    lastX: int, lastY: int,
    cursorX: int, cursorY: int,
    fg: Attr, bg: Attr, lastFg: Attr, lastBg: Attr,
    out: Output, tty: Term)

  function Screen(wc: WidthFn, s: Tb): Term {
    ApplyAll(wc, s.tty, s.out)
  }

  ghost predicate Shape(s: Tb) {
    Sized(s.back, s.w, s.h) && Sized(s.front, s.w, s.h)
  }

  // ----- sending

  function Emit(s: Tb, c: Cmd): Tb {
    s.(out := Then(s.out, c))
  }

  function SendAttr(s: Tb, fg: Attr, bg: Attr): Tb {
    if fg == s.lastFg && bg == s.lastBg then s
    else Emit(s, SetAttr(fg, bg)).(lastFg := fg, lastBg := bg)
  }

  function SendCursorIf(s: Tb, x: int, y: int): Tb {
    if x < 0 || y < 0 then s else Emit(s, MoveTo(x, y))
  }

  /** tb_iswprint: U+0000 and the code points of width -1 are not printable. */
  predicate Printable(wc: WidthFn, ch: Rune) {
    ch != 0 && wc(ch) >= 0
  }

  function Shown(wc: WidthFn, ch: Rune): Rune {
    if Printable(wc, ch) then ch else REPLACEMENT
  }

  function SendChar(wc: WidthFn, s: Tb, x: int, y: int, ch: Rune): Tb {
    var s1 := if s.lastX != x - 1 || s.lastY != y then SendCursorIf(s, x, y) else s;
    Emit(s1.(lastX := x, lastY := y), Put(Shown(wc, ch)))
  }

  function SendSpaces(wc: WidthFn, s: Tb, i: int, y: int): (r: Tb)
    ensures SameFrame(s, r) && r.front == s.front
    decreases s.w - i
  {
    if i >= s.w then s else SendSpaces(wc, SendChar(wc, s, i, y, SPACE), i + 1, y)
  }

  // ----- painting

  /** Painting reads these fields and leaves them alone. */
  ghost predicate SameFrame(s: Tb, r: Tb) {
    && r.width == s.width && r.height == s.height && r.w == s.w && r.h == s.h
    && r.back == s.back && r.cursorX == s.cursorX && r.cursorY == s.cursorY
    && r.fg == s.fg && r.bg == s.bg
  }

  function CellWidth(wc: WidthFn, c: Cell): (w: int)
    ensures w >= 1
  {
    if wc(c.ch) < 1 then 1 else wc(c.ch)
  }

  function SetFront(s: Tb, x: int, y: int, c: Cell): (r: Tb)
    requires Shape(s) && 0 <= y < s.h && 0 <= x < s.w
    ensures Shape(r)
  {
    s.(front := s.front[y := s.front[y][x := c]])
  }

  /** Invalidate the front cells x + i, ..., x + w - 1 that a wide glyph skips. */
  function MarkSkipped(s: Tb, x: int, y: int, i: int, w: int): (r: Tb)
    requires Shape(s) && 0 <= y < s.h && 0 <= x && 1 <= i && x + w <= s.w
    ensures Shape(r) && SameFrame(s, r)
    decreases w - i
  {
    if i >= w then s else MarkSkipped(SetFront(s, x + i, y, INVALID), x, y, i + 1, w)
  }

  function PaintCell(wc: WidthFn, s: Tb, x: int, y: int): (r: Tb)
    requires Shape(s) && 0 <= y < s.h && 0 <= x < s.w
    ensures Shape(r) && SameFrame(s, r)
  {
    var b := s.back[y][x];
    var w := CellWidth(wc, b);
    if b == s.front[y][x] then s
    else
      var s1 := SendAttr(SetFront(s, x, y, b), b.fg, b.bg);
      if w > 1 && x >= s.w - (w - 1) then SendSpaces(wc, s1, x, y)
      else MarkSkipped(SendChar(wc, s1, x, y, b.ch), x, y, 1, w)
  }

  function PaintRow(wc: WidthFn, s: Tb, x: int, y: int): (r: Tb)
    requires Shape(s) && 0 <= y < s.h && 0 <= x
    ensures Shape(r) && SameFrame(s, r)
    decreases s.w - x
  {
    if x >= s.w then s
    else PaintRow(wc, PaintCell(wc, s, x, y), x + CellWidth(wc, s.back[y][x]), y)
  }

  function PaintRows(wc: WidthFn, s: Tb, y: int): (r: Tb)
    requires Shape(s) && 0 <= y
    ensures Shape(r) && SameFrame(s, r)
    decreases s.h - y
  {
    if y >= s.h then s else PaintRows(wc, PaintRow(wc, s, 0, y), y + 1)
  }

  function Paint(wc: WidthFn, s: Tb): (r: Tb)
    requires Shape(s)
    ensures Shape(r) && SameFrame(s, r)
  {
    var p := PaintRows(wc, s.(lastX := -1, lastY := -1), 0);
    SendCursorIf(p, p.cursorX, p.cursorY)
  }

  function Flush(wc: WidthFn, s: Tb): Tb {
    s.(tty := Screen(wc, s), out := Empty)
  }

  function Present(wc: WidthFn, s: Tb): (r: Tb)
    requires Shape(s)
    ensures Shape(r) && SameFrame(s, r)
  {
    Flush(wc, Paint(wc, s))
  }

  // ----- the other calls

  function Blank(s: Tb): Cell {
    Cell(SPACE, s.fg, s.bg)
  }

  predicate InBounds(s: Tb, x: int, y: int) {
    0 <= x < s.w && 0 <= y < s.h
  }

  function SetCell(s: Tb, x: int, y: int, c: Cell): (r: Tb)
    requires Shape(s)
    ensures Shape(r)
  {
    if InBounds(s, x, y) then s.(back := s.back[y := s.back[y][x := c]]) else s
  }

  function Clear(s: Tb): (r: Tb)
    requires Shape(s)
    ensures Shape(r)
  {
    s.(back := Filled(s.back, Blank(s)))
  }

  function SetClearAttrs(s: Tb, fg: Attr, bg: Attr): Tb {
    s.(fg := fg, bg := bg)
  }

  function SetCursor(s: Tb, x: int, y: int): Tb {
    var cx := if x < 0 then 0 else x;
    var cy := if y < 0 then 0 else y;
    SendCursorIf(s, cx, cy).(cursorX := cx, cursorY := cy)
  }

  function HideCursor(s: Tb): Tb {
    s.(cursorX := -1, cursorY := -1)
  }

  function SendClear(wc: WidthFn, s: Tb): Tb {
    var s1 := Emit(SendAttr(s, s.fg, s.bg), Erase);
    Flush(wc, SendCursorIf(s1, s1.cursorX, s1.cursorY)).(lastX := -1, lastY := -1)
  }

  function AtLeast1(n: int): (r: nat)
    ensures r >= 1
  {
    if n < 1 then 1 else n
  }

  /** The buffer's cells where the old and new areas overlap, and `blank` elsewhere. */
  function Resized(g: seq<seq<Cell>>, ow: nat, oh: nat, w: nat, h: nat, blank: Cell): (r: seq<seq<Cell>>)
    requires Sized(g, ow, oh)
    ensures Sized(r, w, h)
  {
    seq(h, y requires 0 <= y < h => seq(w, x requires 0 <= x < w => if y < oh && x < ow then g[y][x] else blank))
  }

  /** resize_cellbufs: tb_invalidate, and the second half of a resize event. */
  function ResizeCellbufs(wc: WidthFn, s: Tb): (r: Tb)
    requires Shape(s)
    ensures Shape(r)
  {
    var same := s.w == s.width && s.h == s.height;
    var nw := if same then s.w else AtLeast1(s.width);
    var nh := if same then s.h else AtLeast1(s.height);
    var back := if same then s.back else Resized(s.back, s.w, s.h, nw, nh, Blank(s));
    var front := Uniform(nw, nh, Blank(s));
    SendClear(wc, s.(w := nw, h := nh, back := back, front := front))
  }

  /** A resize event arrives and the size now reported is w by h (0 if unknown, as for a
      window of one column or row): the content of the window is then arbitrary. */
  function WindowResized(s: Tb, w: nat, h: nat): Term {
    if w == s.width && h == s.height then Scrambled(s.tty)
    else Term(Uniform(AtLeast1(w), AtLeast1(h), Unknown), None, s.tty.attr)
  }

  /** A resize event: the program reads the new size and resizes its buffers. */
  function Resize(wc: WidthFn, s: Tb, w: nat, h: nat): (r: Tb)
    requires Shape(s)
    ensures Shape(r)
  {
    ResizeCellbufs(wc, s.(tty := WindowResized(s, w, h), width := w, height := h))
  }

  /** tb_init on a terminal of w by h columns with arbitrary content. */
  function Init(wc: WidthFn, w: nat, h: nat): (r: Tb)
    ensures Shape(r)
  {
    var tty := Term(Uniform(w, h, Unknown), None, None);
    var s := Tb(-1, -1, 0, 0, [], [], -1, -1, -1, -1, 0, 0, 0xffff, 0xffff, Empty, tty);
    var cells := Uniform(w, h, Blank(s));
    SendClear(wc, s).(width := w, height := h, w := w, h := h, back := cells, front := cells)
  }

  // ----- whole runs

  datatype Op =
    | OpSetCell(x: int, y: int, c: Cell)
    | OpClear
    | OpSetClearAttrs(fg: Attr, bg: Attr)
    | OpSetCursor(cx: int, cy: int)
    | OpHideCursor
    | OpInvalidate
    | OpResize(w: nat, h: nat)
    | OpPresent

  function Step(wc: WidthFn, s: Tb, op: Op): (r: Tb)
    requires Shape(s)
    ensures Shape(r)
  {
    match op
    case OpSetCell(x, y, c) => SetCell(s, x, y, c)
    case OpClear => Clear(s)
    case OpSetClearAttrs(fg, bg) => SetClearAttrs(s, fg, bg)
    case OpSetCursor(x, y) => SetCursor(s, x, y)
    case OpHideCursor => HideCursor(s)
    case OpInvalidate => ResizeCellbufs(wc, s)
    case OpResize(w, h) => Resize(wc, s, w, h)
    case OpPresent => Present(wc, s)
  }

  function Run(wc: WidthFn, s: Tb, ops: seq<Op>): (r: Tb)
    requires Shape(s)
    ensures Shape(r)
  {
    if ops == [] then s else Step(wc, Run(wc, s, ops[..|ops| - 1]), ops[|ops| - 1])
  }

  // ----- the specification: what a full redraw shows

  predicate Wide(wc: WidthFn, c: Cell) {
    wc(c.ch) == 2
  }

  /** Column x lies under the right half of a wide glyph that starts at x - 1. */
  predicate Shadowed(wc: WidthFn, b: seq<Cell>, x: nat)
    requires x <= |b|
  {
    x > 0 && !Shadowed(wc, b, x - 1) && Wide(wc, b[x - 1])
  }

  /** The glyph of a cell that takes one column; a wide glyph that does not fit is a space. */
  function Single(wc: WidthFn, c: Cell): Glyph {
    Narrow(if Wide(wc, c) then SPACE else Shown(wc, c.ch), c.fg, c.bg)
  }

  function ShowAt(wc: WidthFn, b: seq<Cell>, x: nat): Glyph
    requires x < |b|
  {
    if Shadowed(wc, b, x) then WideR(b[x - 1].ch, b[x - 1].fg, b[x - 1].bg)
    else if Wide(wc, b[x]) && x + 1 < |b| then WideL(b[x].ch, b[x].fg, b[x].bg)
    else Single(wc, b[x])
  }

  function ShowRow(wc: WidthFn, b: seq<Cell>): (r: seq<Glyph>)
    ensures |r| == |b|
    ensures forall x :: 0 <= x < |r| ==> r[x] == ShowAt(wc, b, x)
  {
    seq(|b|, x requires 0 <= x < |b| => ShowAt(wc, b, x))
  }

  /** The screen that a left-to-right rendering of the whole buffer gives. */
  function Show(wc: WidthFn, back: seq<seq<Cell>>): (r: seq<seq<Glyph>>)
    ensures |r| == |back|
    ensures forall y :: 0 <= y < |r| ==> r[y] == ShowRow(wc, back[y])
  {
    seq(|back|, y requires 0 <= y < |back| => ShowRow(wc, back[y]))
  }

  /** The cell that a painted front row holds at x. */
  function TileAt(wc: WidthFn, b: seq<Cell>, x: nat): Cell
    requires x < |b|
  {
    if Shadowed(wc, b, x) then INVALID else b[x]
  }

  /** What the header asks of callers: no zero-width code point but U+0000, and not
      the cell that marks skipped columns. */
  predicate Drawable(wc: WidthFn, c: Cell) {
    c != INVALID && (wc(c.ch) == 0 ==> c.ch == 0)
  }

  ghost predicate AllDrawable(wc: WidthFn, g: seq<seq<Cell>>) {
    forall y, x :: 0 <= y < |g| && 0 <= x < |g[y]| ==> Drawable(wc, g[y][x])
  }

  // ----- the specification again, as a program: erase nothing, skip nothing, elide nothing

  function DrawCell(wc: WidthFn, t: Term, b: seq<Cell>, x: nat, y: nat): Term
    requires x < |b|
  {
    var c := b[x];
    var ch := if Wide(wc, c) && x + 1 >= |b| then SPACE else Shown(wc, c.ch);
    Apply(wc, Apply(wc, Apply(wc, t, MoveTo(x, y)), SetAttr(c.fg, c.bg)), Put(ch))
  }

  function RedrawRow(wc: WidthFn, t: Term, b: seq<Cell>, x: nat, y: nat): Term
    decreases |b| - x
  {
    if x >= |b| then t
    else RedrawRow(wc, DrawCell(wc, t, b, x, y), b, x + CellWidth(wc, b[x]), y)
  }

  function Redraw(wc: WidthFn, t: Term, back: seq<seq<Cell>>, y: nat): Term
    decreases |back| - y
  {
    if y >= |back| then t
    else Redraw(wc, RedrawRow(wc, t, back[y], 0, y), back, y + 1)
  }
}
