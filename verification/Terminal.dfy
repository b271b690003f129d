/**
 The terminal on the other side of the file descriptor.

 The model is adversarial: everything that real terminals disagree about gives
 `Unknown`, which stands for arbitrary content.
 - Overwriting one half of a wide glyph leaves arbitrary content in the other half.
 - After a glyph reaches the last column, after an erase and after a move off the
   screen, the cursor is at an unknown place; printing from an unknown place (or a
   glyph that takes no column, or a wide one in the last column) ruins the screen.
 */
module Terminal {
  import opened Wrappers

  // uint32_t code points and the 16-bit uintattr_t of the default build
  type Rune = x: int | 0 <= x < 0x1_0000_0000
  type Attr = x: int | 0 <= x < 0x1_0000

  const SPACE: Rune := 0x20
  const REPLACEMENT: Rune := 0xfffd

  // Columns taken by a code point: tb_wcwidth. The literal table is a parameter.
  type WidthFn = Rune -> int

  /** What the model needs of the width table, whatever it says of other code points. */
  ghost predicate WidthTable(wc: WidthFn) {
    && (forall ch: Rune :: -1 <= wc(ch) <= 2)
    && wc(0) == 0 && wc(SPACE) == 1 && wc(REPLACEMENT) == 1 && wc(0xffff_ffff) == -1
  }

  /** Such tables exist, with code points of every width. */
  lemma {:induction false} SomeTable() returns (wc: WidthFn)
    ensures WidthTable(wc) && wc(0x4e00) == 2 && wc(0x300) == 0
  {
    wc := ch => if ch == 0xffff_ffff then -1 else if ch == 0 || ch == 0x300 then 0 else if ch == 0x4e00 then 2 else 1;
  }

  datatype Glyph =
    | Unknown
    | Narrow(ch: Rune, fg: Attr, bg: Attr)
    | WideL(ch: Rune, fg: Attr, bg: Attr)
    | WideR(ch: Rune, fg: Attr, bg: Attr)

  datatype Cmd =
    | SetAttr(fg: Attr, bg: Attr)
    | MoveTo(x: int, y: int)
    | Put(ch: Rune)
    | Erase

  datatype Term = Term(grid: seq<seq<Glyph>>, cursor: Option<(int, int)>, attr: Option<(Attr, Attr)>)

  ghost predicate Sized<T>(grid: seq<seq<T>>, w: int, h: int) {
    0 <= w && |grid| == h && forall y :: 0 <= y < h ==> |grid[y]| == w
  }

  /** Column x is about to be overwritten: a wide glyph there loses its other half. */
  function Touch(row: seq<Glyph>, x: nat): (r: seq<Glyph>)
    requires x < |row|
    ensures |r| == |row|
  {
    if row[x].WideL? && x + 1 < |row| then row[x + 1 := Unknown]
    else if row[x].WideR? && x > 0 then row[x - 1 := Unknown]
    else row
  }

  function PutNarrow(row: seq<Glyph>, x: nat, g: Glyph): (r: seq<Glyph>)
    requires x < |row|
    ensures |r| == |row|
  {
    Touch(row, x)[x := g]
  }

  function PutWide(row: seq<Glyph>, x: nat, l: Glyph, r: Glyph): (res: seq<Glyph>)
    requires x + 1 < |row|
    ensures |res| == |row|
  {
    Touch(Touch(row, x), x + 1)[x := l][x + 1 := r]
  }

  function Filled<T>(grid: seq<seq<T>>, g: T): (r: seq<seq<T>>)
    ensures |r| == |grid|
    ensures forall y :: 0 <= y < |r| ==> |r[y]| == |grid[y]|
    ensures forall y, x :: 0 <= y < |r| && 0 <= x < |r[y]| ==> r[y][x] == g
  {
    seq(|grid|, y requires 0 <= y < |grid| => seq(|grid[y]|, x => g))
  }

  function Uniform<T>(w: nat, h: nat, g: T): (r: seq<seq<T>>)
    ensures Sized(r, w, h)
    ensures forall y, x :: 0 <= y < h && 0 <= x < w ==> r[y][x] == g
  {
    seq(h, y => seq(w, x => g))
  }

  function Scrambled(t: Term): Term {
    Term(Filled(t.grid, Unknown), None, t.attr)
  }

  predicate OnGrid(t: Term, x: int, y: int) {
    0 <= y < |t.grid| && 0 <= x < |t.grid[y]|
  }

  function CursorAt(t: Term, x: int, y: int): Option<(int, int)> {
    if OnGrid(t, x, y) then Some((x, y)) else None
  }

  function Print(wc: WidthFn, t: Term, ch: Rune): Term {
    if t.cursor.None? || t.attr.None? || !OnGrid(t, t.cursor.value.0, t.cursor.value.1) then
      Scrambled(t)
    else
      var (x, y) := t.cursor.value;
      var (fg, bg) := t.attr.value;
      var row := t.grid[y];
      if wc(ch) == 1 then
        t.(grid := t.grid[y := PutNarrow(row, x, Narrow(ch, fg, bg))], cursor := CursorAt(t, x + 1, y))
      else if wc(ch) == 2 && x + 1 < |row| then
        t.(grid := t.grid[y := PutWide(row, x, WideL(ch, fg, bg), WideR(ch, fg, bg))],
        cursor := CursorAt(t, x + 2, y))
      else
        Scrambled(t)
  }

  function Apply(wc: WidthFn, t: Term, c: Cmd): Term {
    match c
    case SetAttr(fg, bg) => t.(attr := Some((fg, bg)))
    case MoveTo(x, y) => t.(cursor := CursorAt(t, x, y))
    case Put(ch) => Print(wc, t, ch)
    case Erase =>
      if t.attr.None? then Scrambled(t)
      else Term(Filled(t.grid, Narrow(SPACE, t.attr.value.0, t.attr.value.1)), None, t.attr)
  }

  /** Commands in the order they were sent. */
  datatype Output = Empty | Then(before: Output, last: Cmd)

  function ApplyAll(wc: WidthFn, t: Term, out: Output): Term {
    match out
    case Empty => t
    case Then(before, last) => Apply(wc, ApplyAll(wc, t, before), last)
  }

  lemma {:induction false} ApplySized(wc: WidthFn, t: Term, c: Cmd, w: int, h: int)
    requires Sized(t.grid, w, h)
    ensures Sized(Apply(wc, t, c).grid, w, h)
  {
  }
}
