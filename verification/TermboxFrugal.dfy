/**
 What tb_present does not send: attributes that the terminal has already, and cursor moves to
 where the last glyph has left the cursor.
 */
module TermboxFrugal {
  import opened Wrappers
  import opened Terminal
  import opened TermboxSpec
  import opened TermboxRows
  import opened TermboxPaint
  import opened TermboxRuns

  /** The last thing sent is a glyph of one column, attributes aside. */
  predicate NarrowLast(wc: WidthFn, out: Output) {
    out.Then? && ((out.last.Put? && wc(out.last.ch) == 1) || (out.last.SetAttr? && NarrowLast(wc, out.before)))
  }

  /** Every attribute command changes the attributes, and every move behind a glyph of one column
      changes the place of the cursor. */
  ghost predicate Frugal(wc: WidthFn, t: Term, out: Output) {
    out.Then? ==>
      && Frugal(wc, t, out.before)
      && var u := ApplyAll(wc, t, out.before);
         && (out.last.SetAttr? ==> u.attr != Some((out.last.fg, out.last.bg)))
         && (out.last.MoveTo? && NarrowLast(wc, out.before) ==> u.cursor != Some((out.last.x, out.last.y)))
  }

  /** So far; and behind a glyph of one column the cursor is known. */
  ghost predicate SoFar(wc: WidthFn, t: Term, s: Tb) {
    && s.tty == t && Frugal(wc, t, s.out)
    && (NarrowLast(wc, s.out) ==> Screen(wc, s).cursor == CursorAt(Screen(wc, s), s.lastX + 1, s.lastY))
  }

  lemma {:induction false} SendAttrFrugal(wc: WidthFn, t: Term, s: Tb, fg: Attr, bg: Attr)
    requires Synced(wc, s) && SoFar(wc, t, s)
    ensures SoFar(wc, t, SendAttr(s, fg, bg))
  {
    EmitScreen(wc, s, SetAttr(fg, bg));
  }

  lemma {:induction false} AtCharFrugal(wc: WidthFn, t: Term, s: Tb, x: nat, y: nat)
    requires Synced(wc, s) && SoFar(wc, t, s)
    ensures Frugal(wc, t, AtChar(s, x, y).out) && AtChar(s, x, y).tty == t
  {
  }

  lemma {:induction false} SendCharFrugal(wc: WidthFn, t: Term, s: Tb, x: nat, y: nat, ch: Rune)
    requires WidthTable(wc) && Synced(wc, s) && SoFar(wc, t, s) && x < s.w && y < s.h && CursorKnown(wc, s, x, y)
    requires (wc(ch) == 0 ==> ch == 0) && (wc(ch) == 2 ==> x + 1 < s.w)
    ensures SoFar(wc, t, SendChar(wc, s, x, y, ch))
  {
    AtCharFrugal(wc, t, s, x, y);
    SendCharScreen(wc, s, x, y, ch);
    var r := SendChar(wc, s, x, y, ch);
    assert r.out == Then(AtChar(s, x, y).out, Put(Shown(wc, ch))) && r.tty == s.tty;
    assert wc(Shown(wc, ch)) == if wc(ch) == 2 then 2 else 1;
  }

  lemma {:induction false} CellFrugal(wc: WidthFn, t: Term, s: Tb, f0: seq<Cell>, x: nat, y: nat)
    requires WidthTable(wc) && AtFrontier(wc, s, f0, x, y) && x < s.w && SoFar(wc, t, s)
    requires PaintableAt(wc, s.back[y], f0, x)
    ensures SoFar(wc, t, PaintCell(wc, s, x, y))
  {
    var b := s.back[y][x];
    if b != s.front[y][x] {
      var s0 := SetFront(s, x, y, b);
      assert Screen(wc, s0) == Screen(wc, s);
      SendAttrScreen(wc, s0, b.fg, b.bg);
      SendAttrFrugal(wc, t, s0, b.fg, b.bg);
      ChangedFrugal(wc, t, SendAttr(s0, b.fg, b.bg), x, y, b);
    }
  }

  lemma {:induction false} ChangedFrugal(wc: WidthFn, t: Term, s: Tb, x: nat, y: nat, b: Cell)
    requires WidthTable(wc) && Synced(wc, s) && SoFar(wc, t, s) && x < s.w && y < s.h && CursorKnown(wc, s, x, y)
    requires wc(b.ch) == 0 ==> b.ch == 0
    ensures var w := CellWidth(wc, b);
            SoFar(wc, t, if w > 1 && x >= s.w - (w - 1) then SendSpaces(wc, s, x, y)
                      else MarkSkipped(SendChar(wc, s, x, y, b.ch), x, y, 1, w))
  {
    var w := CellWidth(wc, b);
    if w > 1 && x >= s.w - (w - 1) {
      SendCharFrugal(wc, t, s, x, y, SPACE);
      assert SendSpaces(wc, s, x, y) == SendSpaces(wc, SendChar(wc, s, x, y, SPACE), x + 1, y)
          == SendChar(wc, s, x, y, SPACE);
    } else {
      SendCharFrugal(wc, t, s, x, y, b.ch);
      var r := SendChar(wc, s, x, y, b.ch);
      if w == 2 {
        var m := SetFront(r, x + 1, y, INVALID);
        assert MarkSkipped(r, x, y, 1, w) == MarkSkipped(m, x, y, 2, w) == m;
        assert Screen(wc, m) == Screen(wc, r);
      }
    }
  }

  lemma {:induction false} FirstCellFrugal(wc: WidthFn, t: Term, s: Tb, f0: seq<Cell>, x: nat, y: nat)
    returns (r: Tb, x': nat)
    requires WidthTable(wc) && AtFrontier(wc, s, f0, x, y) && PaintableRow(wc, s.back[y], f0) && x < s.w
    requires SoFar(wc, t, s)
    ensures x' > x && SameFrame(s, r) && AtFrontier(wc, r, f0, x', y) && SoFar(wc, t, r)
    ensures PaintRow(wc, s, x, y) == PaintRow(wc, r, x', y)
  {
    x' := x + CellWidth(wc, s.back[y][x]);
    r := PaintCell(wc, s, x, y);
    PaintCellStep(wc, s, f0, x, y);
    CellFrugal(wc, t, s, f0, x, y);
  }

  lemma {:induction false} RowFrugal(wc: WidthFn, t: Term, s: Tb, f0: seq<Cell>, x: nat, y: nat)
    requires WidthTable(wc) && AtFrontier(wc, s, f0, x, y) && PaintableRow(wc, s.back[y], f0) && SoFar(wc, t, s)
    ensures SoFar(wc, t, PaintRow(wc, s, x, y))
    decreases s.w - x
  {
    if x < s.w {
      var r, x' := FirstCellFrugal(wc, t, s, f0, x, y);
      RowFrugal(wc, t, r, f0, x', y);
    }
  }

  lemma {:induction false} RowsFrugal(wc: WidthFn, t: Term, s: Tb, y: nat)
    requires WidthTable(wc) && Synced(wc, s) && s.lastY < y <= s.h && SoFar(wc, t, s)
    requires forall j :: y <= j < s.h ==> PaintableRow(wc, s.back[j], s.front[j])
    requires DoneRows(wc, s, y) && RestRows(wc, s, y)
    ensures SoFar(wc, t, PaintRows(wc, s, y))
    decreases s.h - y
  {
    if y < s.h {
      assert PaintableRow(wc, s.back[y], s.front[y]);
      StartRow(wc, s.back[y], s.front[y], Screen(wc, s).grid[y]);
      PaintRowDone(wc, s, s.front[y], 0, y);
      RowFrugal(wc, t, s, s.front[y], 0, y);
      RowPainted(wc, s, PaintRow(wc, s, 0, y), y);
      RowsFrugal(wc, t, PaintRow(wc, s, 0, y), y + 1);
    }
  }

  lemma {:induction false} PresentIsFrugal(wc: WidthFn, s: Tb)
    requires WidthTable(wc) && Rest(wc, s) && AllPaintable(wc, s)
    requires Frugal(wc, s.tty, s.out) && !NarrowLast(wc, s.out)
    ensures Frugal(wc, s.tty, PaintRows(wc, s.(lastX := -1, lastY := -1), 0).out)
  {
    var s0 := s.(lastX := -1, lastY := -1);
    assert Screen(wc, s0) == Screen(wc, s);
    RowsFrugal(wc, s.tty, s0, 0);
  }

  // ----- over whole runs

  predicate OnlyMoves(out: Output) {
    out.Then? ==> out.last.MoveTo? && OnlyMoves(out.before)
  }

  lemma {:induction false} MovesAreFrugal(wc: WidthFn, t: Term, out: Output)
    requires OnlyMoves(out)
    ensures Frugal(wc, t, out) && !NarrowLast(wc, out)
  {
    if out.Then? {
      MovesAreFrugal(wc, t, out.before);
    }
  }

  lemma {:induction false} StepQueues(wc: WidthFn, s: Tb, op: Op)
    requires Shape(s) && OnlyMoves(s.out)
    ensures OnlyMoves(Step(wc, s, op).out)
  {
  }

  /** Between calls only cursor moves are queued. */
  lemma {:induction false} RunQueues(wc: WidthFn, s: Tb, ops: seq<Op>)
    requires Shape(s) && OnlyMoves(s.out)
    ensures OnlyMoves(Run(wc, s, ops).out)
    decreases |ops|
  {
    if ops != [] {
      RunQueues(wc, s, ops[..|ops| - 1]);
      StepQueues(wc, Run(wc, s, ops[..|ops| - 1]), ops[|ops| - 1]);
    }
  }

  /** Over every run, until its last cursor move, which is sent in any case, tb_present sends no
      attributes that the terminal has, and no move to where a glyph of one column has left the
      cursor. */
  lemma {:induction false} EveryPresentIsFrugal(wc: WidthFn, w: nat, h: nat, ops: seq<Op>, i: nat)
    requires WidthTable(wc) && i < |ops| && ops[i].OpPresent? && EachPaintable(wc, w, h, ops, i + 1)
    ensures var s := After(wc, w, h, ops, i);
            Frugal(wc, s.tty, PaintRows(wc, s.(lastX := -1, lastY := -1), 0).out)
  {
    var s := After(wc, w, h, ops, i);
    RunRests(wc, w, h, ops, i);
    RunQueues(wc, Init(wc, w, h), ops[..i]);
    MovesAreFrugal(wc, s.tty, s.out);
    PresentIsFrugal(wc, s);
  }
}
