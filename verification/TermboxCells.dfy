/**
 What a run of calls puts on the screen, read off the calls alone: the size, the clear
 attributes, the cursor and every cell of the back buffer, and the glyph of a written cell.
 */
module TermboxCells {
  import opened Wrappers
  import opened Terminal
  import opened TermboxSpec
  import opened TermboxPaint
  import opened TermboxRuns

  // ----- the history of the calls

  /** The size of the buffers: that of the last window, but never less than one by one. */
  function Size(w: nat, h: nat, ops: seq<Op>): (nat, nat) {
    if ops == [] then (w, h)
    else
      var (pw, ph) := Size(w, h, ops[..|ops| - 1]);
      match ops[|ops| - 1]
      case OpResize(nw, nh) =>
        if nw == pw && nh == ph then (pw, ph) else (if nw < 1 then 1 else nw, if nh < 1 then 1 else nh)
      case _ => (pw, ph)
  }

  /** The last clear attributes set. */
  function ClearAttrs(ops: seq<Op>): (Attr, Attr) {
    if ops == [] then (0, 0)
    else
      match ops[|ops| - 1]
      case OpSetClearAttrs(fg, bg) => (fg, bg)
      case _ => ClearAttrs(ops[..|ops| - 1])
  }

  /** Where the cursor was put last; -1, -1 when it is hidden. */
  function Caret(ops: seq<Op>): (int, int) {
    if ops == [] then (-1, -1)
    else
      match ops[|ops| - 1]
      case OpSetCursor(x, y) => (if x < 0 then 0 else x, if y < 0 then 0 else y)
      case OpHideCursor => (-1, -1)
      case _ => Caret(ops[..|ops| - 1])
  }

  /** The cell at x, y: what was written last, or a space in the attributes that were in force
      when the buffer was cleared, or grew to have that cell. */
  function Written(w: nat, h: nat, ops: seq<Op>, x: int, y: int): Cell {
    if ops == [] then Cell(0x20, 0, 0)
    else
      var before := ops[..|ops| - 1];
      match ops[|ops| - 1]
      case OpSetCell(i, j, c) => if i == x && j == y then c else Written(w, h, before, x, y)
      case OpClear => Cell(0x20, ClearAttrs(before).0, ClearAttrs(before).1)
      case OpResize(_, _) =>
        if x < Size(w, h, before).0 && y < Size(w, h, before).1 then Written(w, h, before, x, y)
        else Cell(0x20, ClearAttrs(before).0, ClearAttrs(before).1)
      case _ => Written(w, h, before, x, y)
  }

  ghost predicate Recorded(w: nat, h: nat, ops: seq<Op>, s: Tb) {
    && Shape(s) && (s.w, s.h) == Size(w, h, ops) && (s.fg, s.bg) == ClearAttrs(ops)
    && (s.cursorX, s.cursorY) == Caret(ops)
    && (forall y, x :: 0 <= y < s.h && 0 <= x < s.w ==> s.back[y][x] == Written(w, h, ops, x, y))
    && ((s.w == s.width && s.h == s.height) || (s.w == AtLeast1(s.width) && s.h == AtLeast1(s.height)))
  }

  lemma {:induction false} SetCellRecorded(wc: WidthFn, w: nat, h: nat, ops: seq<Op>, s: Tb)
    requires ops != [] && Recorded(w, h, ops[..|ops| - 1], s) && ops[|ops| - 1].OpSetCell?
    ensures Recorded(w, h, ops, Step(wc, s, ops[|ops| - 1]))
  {
  }

  lemma {:induction false} ClearRecorded(wc: WidthFn, w: nat, h: nat, ops: seq<Op>, s: Tb)
    requires ops != [] && Recorded(w, h, ops[..|ops| - 1], s) && ops[|ops| - 1].OpClear?
    ensures Recorded(w, h, ops, Step(wc, s, ops[|ops| - 1]))
  {
  }

  /** tb_invalidate, or the second half of a resize. */
  lemma {:induction false} ResizedCells(wc: WidthFn, s: Tb)
    requires Shape(s)
    ensures var r := ResizeCellbufs(wc, s);
            && (r.w, r.h) == (if s.w == s.width && s.h == s.height then (s.w, s.h)
                              else (if s.width < 1 then 1 else s.width, if s.height < 1 then 1 else s.height))
            && r.width == s.width && r.height == s.height && (r.fg, r.bg) == (s.fg, s.bg)
            && (r.cursorX, r.cursorY) == (s.cursorX, s.cursorY)
            && forall y, x :: 0 <= y < r.h && 0 <= x < r.w ==>
                 r.back[y][x] == if x < s.w && y < s.h then s.back[y][x] else Cell(0x20, s.fg, s.bg)
  {
  }

  lemma {:induction false} ResizeRecorded(wc: WidthFn, w: nat, h: nat, ops: seq<Op>, s: Tb)
    requires ops != [] && Recorded(w, h, ops[..|ops| - 1], s) && ops[|ops| - 1].OpResize?
    ensures Recorded(w, h, ops, Step(wc, s, ops[|ops| - 1]))
  {
    var op := ops[|ops| - 1];
    ResizedCells(wc, s.(tty := WindowResized(s, op.w, op.h), width := op.w, height := op.h));
  }

  lemma {:induction false} InvalidateRecorded(wc: WidthFn, w: nat, h: nat, ops: seq<Op>, s: Tb)
    requires ops != [] && Recorded(w, h, ops[..|ops| - 1], s) && ops[|ops| - 1].OpInvalidate?
    ensures Recorded(w, h, ops, Step(wc, s, ops[|ops| - 1]))
  {
    ResizedCells(wc, s);
  }

  lemma {:induction false} OtherRecorded(wc: WidthFn, w: nat, h: nat, ops: seq<Op>, s: Tb)
    requires ops != [] && Recorded(w, h, ops[..|ops| - 1], s)
    requires match ops[|ops| - 1] case OpSetCell(_, _, _) => false case OpClear => false case OpResize(_, _) => false
             case OpInvalidate => false case _ => true
    ensures Recorded(w, h, ops, Step(wc, s, ops[|ops| - 1]))
  {
    assert Step(wc, s, ops[|ops| - 1]).back == s.back;
  }

  lemma {:induction false} StepRecorded(wc: WidthFn, w: nat, h: nat, ops: seq<Op>, s: Tb)
    requires ops != [] && Recorded(w, h, ops[..|ops| - 1], s)
    ensures Recorded(w, h, ops, Step(wc, s, ops[|ops| - 1]))
  {
    match ops[|ops| - 1]
    case OpSetCell(_, _, _) => SetCellRecorded(wc, w, h, ops, s);
    case OpClear => ClearRecorded(wc, w, h, ops, s);
    case OpResize(_, _) => ResizeRecorded(wc, w, h, ops, s);
    case OpInvalidate => InvalidateRecorded(wc, w, h, ops, s);
    case _ => OtherRecorded(wc, w, h, ops, s);
  }

  /** Over every run: size, clear attributes, cursor and cells are those of the calls. */
  lemma {:induction false} RunRecorded(wc: WidthFn, w: nat, h: nat, ops: seq<Op>)
    ensures Recorded(w, h, ops, Run(wc, Init(wc, w, h), ops))
    decreases |ops|
  {
    if ops != [] {
      RunRecorded(wc, w, h, ops[..|ops| - 1]);
      StepRecorded(wc, w, h, ops, Run(wc, Init(wc, w, h), ops[..|ops| - 1]));
    }
  }

  /** The call does not write the cell. */
  predicate Spares(op: Op, x: int, y: int) {
    op != OpClear && (op.OpSetCell? ==> op.x != x || op.y != y)
  }

  /** A cell keeps what was written to it until it is written again, cleared, or cut off. */
  lemma {:induction false} WriteStays(w: nat, h: nat, ops: seq<Op>, i: nat, n: nat)
    requires i < n <= |ops| && ops[i].OpSetCell?
    requires forall j :: i < j < n ==> Spares(ops[j], ops[i].x, ops[i].y)
    requires forall j :: i < j < n ==> ops[i].x < Size(w, h, ops[..j]).0 && ops[i].y < Size(w, h, ops[..j]).1
    ensures Written(w, h, ops[..n], ops[i].x, ops[i].y) == ops[i].c
    decreases n
  {
    assert ops[..n][..n - 1] == ops[..n - 1];
    if i + 1 < n {
      WriteStays(w, h, ops, i, n - 1);
    }
  }

  // ----- the screen

  /** The glyph of c at x, y: its character in its attributes, over two columns if it is wide and
      fits, a space if it is wide and does not fit, and U+FFFD if it cannot be printed. */
  ghost predicate GlyphOf(wc: WidthFn, g: seq<seq<Glyph>>, x: nat, y: nat, c: Cell) {
    && y < |g| && x < |g[y]|
    && (wc(c.ch) == 1 ==> g[y][x] == Narrow(c.ch, c.fg, c.bg))
    && (wc(c.ch) == 2 && x + 1 < |g[y]| ==>
          g[y][x] == WideL(c.ch, c.fg, c.bg) && g[y][x + 1] == WideR(c.ch, c.fg, c.bg))
    && (wc(c.ch) == 2 && x + 1 == |g[y]| ==> g[y][x] == Narrow(0x20, c.fg, c.bg))
    && (c.ch == 0 || wc(c.ch) < 0 ==> g[y][x] == Narrow(0xfffd, c.fg, c.bg))
  }

  lemma {:induction false} ShowsGlyph(wc: WidthFn, b: seq<seq<Cell>>, g: seq<seq<Glyph>>, x: nat, y: nat)
    requires WidthTable(wc) && g == Show(wc, b) && y < |b| && x < |b[y]|
    requires x == 0 || wc(b[y][x - 1].ch) != 2
    ensures GlyphOf(wc, g, x, y, b[y][x])
  {
    assert g[y][x] == ShowAt(wc, b[y], x);
    if Wide(wc, b[y][x]) && x + 1 < |b[y]| {
      assert g[y][x + 1] == ShowAt(wc, b[y], x + 1);
    }
  }

  /** Over every run of drawable cells: after tb_present every cell of the buffer that is not
      behind a wide one shows the glyph of what was written there last. */
  lemma {:induction false} WrittenShows(wc: WidthFn, w: nat, h: nat, ops: seq<Op>, n: nat, x: nat, y: nat)
    requires WidthTable(wc) && DrawableOps(wc, ops) && n < |ops| && ops[n].OpPresent?
    requires x < Size(w, h, ops[..n]).0 && y < Size(w, h, ops[..n]).1
    requires x == 0 || wc(Written(w, h, ops[..n], x - 1, y).ch) != 2
    ensures GlyphOf(wc, After(wc, w, h, ops, n + 1).tty.grid, x, y, Written(w, h, ops[..n], x, y))
  {
    RunRecorded(wc, w, h, ops[..n]);
    EveryPresentShows(wc, w, h, ops, n);
    ShowsGlyph(wc, After(wc, w, h, ops, n).back, After(wc, w, h, ops, n + 1).tty.grid, x, y);
  }

  /** What tb_set_cell wrote is on the screen, if it is not written over. */
  lemma {:induction false} SetCellShows(wc: WidthFn, w: nat, h: nat, ops: seq<Op>, i: nat, n: nat, x: nat, y: nat,
          c: Cell)
    requires WidthTable(wc) && DrawableOps(wc, ops) && i < n < |ops| && ops[n].OpPresent?
    requires ops[i] == OpSetCell(x, y, c) && forall j :: i < j < n ==> Spares(ops[j], x, y)
    requires forall j :: i < j <= n ==> x < Size(w, h, ops[..j]).0 && y < Size(w, h, ops[..j]).1
    requires x == 0 || wc(Written(w, h, ops[..n], x - 1, y).ch) != 2
    ensures GlyphOf(wc, After(wc, w, h, ops, n + 1).tty.grid, x, y, c)
  {
    WriteStays(w, h, ops, i, n);
    WrittenShows(wc, w, h, ops, n, x, y);
  }

  /** After tb_present the terminal's cursor is where it was put last, unless it is hidden. */
  lemma {:induction false} CursorShows(wc: WidthFn, w: nat, h: nat, ops: seq<Op>, n: nat)
    requires WidthTable(wc) && DrawableOps(wc, ops) && n < |ops| && ops[n].OpPresent?
    requires var c := Caret(ops[..n]); 0 <= c.0 < Size(w, h, ops[..n]).0 && 0 <= c.1 < Size(w, h, ops[..n]).1
    ensures After(wc, w, h, ops, n + 1).tty.cursor == Some(Caret(ops[..n]))
  {
    var s := After(wc, w, h, ops, n);
    RunRecorded(wc, w, h, ops[..n]);
    AfterNext(wc, w, h, ops, n);
    EveryPresentShows(wc, w, h, ops, n);
    var p := PaintRows(wc, s.(lastX := -1, lastY := -1), 0);
    EmitScreen(wc, p, MoveTo(p.cursorX, p.cursorY));
    assert Present(wc, s).tty == Apply(wc, Screen(wc, p), MoveTo(p.cursorX, p.cursorY));
    assert Present(wc, s).tty.grid == Show(wc, s.back);
  }
}
