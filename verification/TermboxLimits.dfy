/** Exactly when tb_present shows the back buffer, and what a second tb_present does. */
module TermboxLimits {
  import opened Terminal
  import opened TermboxSpec
  import opened TermboxRows
  import opened TermboxPaint
  import opened TermboxRuns

  /** Column x of row y holds arbitrary content. */
  ghost predicate Lost(t: Term, x: nat, y: nat) {
    y < |t.grid| && x < |t.grid[y]| && t.grid[y][x] == Unknown
  }

  /** Painting to the right of a lost column, or on later rows, never brings it back. */
  ghost predicate Behind(t: Term, x: nat, y: nat) {
    t.cursor.Some? ==> t.cursor.value.1 > y || (t.cursor.value.1 == y && t.cursor.value.0 > x)
  }

  lemma {:induction false} EmitKeepsLost(wc: WidthFn, s: Tb, c: Cmd, x: nat, y: nat)
    requires Lost(Screen(wc, s), x, y) && Behind(Screen(wc, s), x, y) && !c.Erase?
    requires c.MoveTo? ==> c.y > y || (c.y == y && c.x > x)
    ensures Lost(Screen(wc, Emit(s, c)), x, y) && Behind(Screen(wc, Emit(s, c)), x, y)
  {
    EmitScreen(wc, s, c);
  }

  /** Column x of row y is lost, and no elided cursor move can lead back to it. */
  ghost predicate LostBehind(wc: WidthFn, s: Tb, x: nat, y: nat) {
    && Lost(Screen(wc, s), x, y)
    && (s.lastY > y || (s.lastY == y && s.lastX >= x) ==> Behind(Screen(wc, s), x, y))
  }

  lemma {:induction false} SendCharKeepsLost(wc: WidthFn, s: Tb, i: nat, j: nat, ch: Rune, x: nat, y: nat)
    requires LostBehind(wc, s, x, y) && (j > y || (j == y && i > x))
    ensures LostBehind(wc, SendChar(wc, s, i, j, ch), x, y)
  {
    var a := AtChar(s, i, j);
    EmitScreen(wc, s, MoveTo(i, j));
    assert Screen(wc, a) == Screen(wc, if s.lastX != i - 1 || s.lastY != j then Emit(s, MoveTo(i, j)) else s);
    EmitKeepsLost(wc, a, Put(Shown(wc, ch)), x, y);
  }

  lemma {:induction false} SendSpacesKeepsLost(wc: WidthFn, s: Tb, i: nat, j: nat, x: nat, y: nat)
    requires LostBehind(wc, s, x, y) && (j > y || (j == y && i > x))
    ensures LostBehind(wc, SendSpaces(wc, s, i, j), x, y)
    decreases s.w - i
  {
    if i < s.w {
      SendCharKeepsLost(wc, s, i, j, SPACE, x, y);
      SendSpacesKeepsLost(wc, SendChar(wc, s, i, j, SPACE), i + 1, j, x, y);
    }
  }

  lemma {:induction false} MarkSkippedScreen(wc: WidthFn, s: Tb, i: nat, j: nat, k: nat, w: nat)
    requires Shape(s) && j < s.h && 1 <= k && i + w <= s.w
    ensures Screen(wc, MarkSkipped(s, i, j, k, w)) == Screen(wc, s)
    decreases w - k
  {
    if k < w {
      assert Screen(wc, SetFront(s, i + k, j, INVALID)) == Screen(wc, s);
      MarkSkippedScreen(wc, SetFront(s, i + k, j, INVALID), i, j, k + 1, w);
    }
  }

  lemma {:induction false} PaintCellKeepsLost(wc: WidthFn, s: Tb, i: nat, j: nat, x: nat, y: nat)
    requires Shape(s) && j < s.h && i < s.w
    requires LostBehind(wc, s, x, y) && (j > y || (j == y && i > x))
    ensures LostBehind(wc, PaintCell(wc, s, i, j), x, y)
  {
    var b := s.back[j][i];
    var w := CellWidth(wc, b);
    if b != s.front[j][i] {
      var s0 := SetFront(s, i, j, b);
      assert Screen(wc, s0) == Screen(wc, s);
      EmitScreen(wc, s0, SetAttr(b.fg, b.bg));
      var s1 := SendAttr(s0, b.fg, b.bg);
      assert Screen(wc, s1) ==
             Screen(wc, if b.fg == s0.lastFg && b.bg == s0.lastBg then s0 else Emit(s0, SetAttr(b.fg, b.bg)));
      if w > 1 && i >= s.w - (w - 1) {
        SendSpacesKeepsLost(wc, s1, i, j, x, y);
      } else {
        SendCharKeepsLost(wc, s1, i, j, b.ch, x, y);
        MarkSkippedScreen(wc, SendChar(wc, s1, i, j, b.ch), i, j, 1, w);
      }
    }
  }

  lemma {:induction false} PaintRowKeepsLost(wc: WidthFn, s: Tb, i: nat, j: nat, x: nat, y: nat)
    requires Shape(s) && j < s.h
    requires LostBehind(wc, s, x, y) && (j > y || (j == y && i > x))
    ensures LostBehind(wc, PaintRow(wc, s, i, j), x, y)
    decreases s.w - i
  {
    if i < s.w {
      PaintCellKeepsLost(wc, s, i, j, x, y);
      PaintRowKeepsLost(wc, PaintCell(wc, s, i, j), i + CellWidth(wc, s.back[j][i]), j, x, y);
    }
  }

  lemma {:induction false} PaintRowsKeepsLost(wc: WidthFn, s: Tb, j: nat, x: nat, y: nat)
    requires Shape(s) && LostBehind(wc, s, x, y) && j > y
    ensures LostBehind(wc, PaintRows(wc, s, j), x, y)
    decreases s.h - j
  {
    if j < s.h {
      PaintRowKeepsLost(wc, s, 0, j, x, y);
      PaintRowsKeepsLost(wc, PaintRow(wc, s, 0, j), j + 1, x, y);
    }
  }

  /** A column that cannot be painted is lost. */
  lemma {:induction false} UnpaintableIsLost(wc: WidthFn, s: Tb, f0: seq<Cell>, x: nat, y: nat)
    requires WidthTable(wc) && AtFrontier(wc, s, f0, x, y) && x < s.w
    requires !PaintableAt(wc, s.back[y], f0, x)
    ensures LostBehind(wc, PaintCell(wc, s, x, y), x, y)
  {
    var b := s.back[y][x];
    if b == INVALID && Skipped(wc, f0, x) {
      assert PaintCell(wc, s, x, y) == s;
    } else {
      var s0 := SetFront(s, x, y, b);
      assert Screen(wc, s0) == Screen(wc, s);
      SendAttrScreen(wc, s0, b.fg, b.bg);
      var s1 := SendAttr(s0, b.fg, b.bg);
      AtCharScreen(wc, s1, x, y);
      EmitScreen(wc, AtChar(s1, x, y), Put(b.ch));
      assert PaintCell(wc, s, x, y) == MarkSkipped(Emit(AtChar(s1, x, y), Put(b.ch)), x, y, 1, 1);
    }
  }

  lemma {:induction false} LostForGood(wc: WidthFn, s: Tb, f0: seq<Cell>, x: nat, y: nat)
    requires WidthTable(wc) && AtFrontier(wc, s, f0, x, y) && x < s.w
    requires !PaintableAt(wc, s.back[y], f0, x)
    ensures LostBehind(wc, PaintRow(wc, s, x, y), x, y)
  {
    UnpaintableIsLost(wc, s, f0, x, y);
    PaintRowKeepsLost(wc, PaintCell(wc, s, x, y), x + CellWidth(wc, s.back[y][x]), y, x, y);
  }

  lemma {:induction false} PaintedBefore(wc: WidthFn, s: Tb, f0: seq<Cell>, x: nat, y: nat, bad: nat)
      returns (r: Tb, x': nat)
    requires WidthTable(wc) && AtFrontier(wc, s, f0, x, y) && x < bad < s.w
    requires PaintableAt(wc, s.back[y], f0, x) && !PaintableAt(wc, s.back[y], f0, bad)
    ensures x < x' <= bad && AtFrontier(wc, r, f0, x', y) && SameFrame(s, r)
    ensures PaintRow(wc, s, x, y) == PaintRow(wc, r, x', y)
  {
    x' := x + CellWidth(wc, s.back[y][x]);
    r := PaintCell(wc, s, x, y);
    PaintCellStep(wc, s, f0, x, y);
    assert Shadowed(wc, s.back[y], x + 1) == Wide(wc, s.back[y][x]);
  }

  lemma {:induction false} UnpaintableRow(wc: WidthFn, s: Tb, f0: seq<Cell>, x: nat, y: nat, bad: nat) returns (k: nat)
    requires WidthTable(wc) && AtFrontier(wc, s, f0, x, y) && x <= bad < s.w
    requires !PaintableAt(wc, s.back[y], f0, bad)
    ensures k < s.w && LostBehind(wc, PaintRow(wc, s, x, y), k, y)
    decreases s.w - x
  {
    if !PaintableAt(wc, s.back[y], f0, x) {
      LostForGood(wc, s, f0, x, y);
      k := x;
    } else {
      var r, x' := PaintedBefore(wc, s, f0, x, y, bad);
      k := UnpaintableRow(wc, r, f0, x', y, bad);
    }
  }

  lemma {:induction false} UnpaintableRows(wc: WidthFn, s: Tb, j: nat, bad: nat) returns (k: nat, y: nat)
    requires WidthTable(wc) && Synced(wc, s) && s.lastY < j <= bad < s.h
    requires RestRows(wc, s, j) && !PaintableRow(wc, s.back[bad], s.front[bad])
    ensures k < s.w && y < s.h && Lost(Screen(wc, PaintRows(wc, s, j)), k, y)
    decreases s.h - j
  {
    StartRow(wc, s.back[j], s.front[j], Screen(wc, s).grid[j]);
    var r := PaintRow(wc, s, 0, j);
    if x: nat :| x < s.w && !PaintableAt(wc, s.back[j], s.front[j], x) {
      k := UnpaintableRow(wc, s, s.front[j], 0, j, x);
      y := j;
      PaintRowsKeepsLost(wc, r, j + 1, k, j);
    } else {
      RowBefore(wc, s, j, bad);
      k, y := UnpaintableRows(wc, r, j + 1, bad);
    }
  }

  /** A row that can be painted, above one that cannot. */
  lemma {:induction false} RowBefore(wc: WidthFn, s: Tb, j: nat, bad: nat)
    requires WidthTable(wc) && Synced(wc, s) && s.lastY < j <= bad < s.h && RestRows(wc, s, j)
    requires PaintableRow(wc, s.back[j], s.front[j]) && !PaintableRow(wc, s.back[bad], s.front[bad])
    ensures var r := PaintRow(wc, s, 0, j);
            && Synced(wc, r) && r.lastY <= j < bad && SameFrame(s, r) && RestRows(wc, r, j + 1)
            && !PaintableRow(wc, r.back[bad], r.front[bad])
  {
    StartRow(wc, s.back[j], s.front[j], Screen(wc, s).grid[j]);
    PaintRowDone(wc, s, s.front[j], 0, j);
  }

  /** From a state at rest, tb_present shows the back buffer exactly when every column that
      no wide glyph hides can be painted: it holds no zero-width code point, and not the
      all-ones cell where a wide glyph of the front buffer covers it. */
  lemma {:induction false} PresentShowsExactly(wc: WidthFn, s: Tb)
    requires WidthTable(wc) && Rest(wc, s)
    ensures Present(wc, s).tty.grid == Show(wc, s.back) <==> AllPaintable(wc, s)
  {
    if AllPaintable(wc, s) {
      PresentShows(wc, s);
    } else {
      var bad: nat :| bad < s.h && !PaintableRow(wc, s.back[bad], s.front[bad]);
      var s0 := s.(lastX := -1, lastY := -1);
      assert Screen(wc, s0) == Screen(wc, s);
      var k, y := UnpaintableRows(wc, s0, 0, bad);
      var p := PaintRows(wc, s0, 0);
      EmitScreen(wc, p, MoveTo(p.cursorX, p.cursorY));
      assert Present(wc, s).tty.grid[y][k] == Unknown;
      assert Show(wc, s.back)[y][k] == ShowAt(wc, s.back[y], k);
    }
  }

  /** Each tb_present among the first n calls shows the back buffer. */
  ghost predicate EachShows(wc: WidthFn, w: nat, h: nat, ops: seq<Op>, n: nat)
    requires n <= |ops|
  {
    forall i :: 0 <= i < n && ops[i].OpPresent? ==> Shows(wc, w, h, ops, i)
  }

  lemma {:induction false} ShowsExactly(wc: WidthFn, w: nat, h: nat, ops: seq<Op>, i: nat)
    requires WidthTable(wc) && i < |ops| && ops[i].OpPresent? && EachPaintable(wc, w, h, ops, i)
    ensures Shows(wc, w, h, ops, i) <==> AllPaintable(wc, After(wc, w, h, ops, i))
  {
    RunRests(wc, w, h, ops, i);
    AfterNext(wc, w, h, ops, i);
    PresentShowsExactly(wc, After(wc, w, h, ops, i));
  }

  lemma {:induction false} NextShowsExactly(wc: WidthFn, w: nat, h: nat, ops: seq<Op>, i: nat)
    requires WidthTable(wc) && i < |ops| && (EachShows(wc, w, h, ops, i) <==> EachPaintable(wc, w, h, ops, i))
    ensures EachShows(wc, w, h, ops, i + 1) <==> EachPaintable(wc, w, h, ops, i + 1)
  {
    if ops[i].OpPresent? && EachPaintable(wc, w, h, ops, i) {
      ShowsExactly(wc, w, h, ops, i);
    }
  }

  /** Over every run, with any cells: all calls of tb_present show the back buffer exactly when
      each of them finds cells that it can paint. */
  lemma {:induction false} EveryPresentShowsExactly(wc: WidthFn, w: nat, h: nat, ops: seq<Op>, n: nat)
    requires WidthTable(wc) && n <= |ops|
    ensures EachShows(wc, w, h, ops, n) <==> EachPaintable(wc, w, h, ops, n)
    decreases n
  {
    if n > 0 {
      EveryPresentShowsExactly(wc, w, h, ops, n - 1);
      NextShowsExactly(wc, w, h, ops, n - 1);
    }
  }

  /** The condition can fail: a wide glyph is drawn, then a narrow one replaces it while the
      column it uncovers is set to the all-ones cell, which no document forbids. */
  lemma {:induction false} InvalidCellIsNotShown(wc: WidthFn, s: Tb, wide: Rune)
    requires WidthTable(wc) && wc(wide) == 2 && Rest(wc, s) && AllDrawable(wc, s.back) && s.w >= 2 && s.h >= 1
    ensures var s1 := Present(wc, SetCell(s, 0, 0, Cell(wide, 0, 0)));
            var s2 := SetCell(SetCell(s1, 0, 0, Cell(SPACE, 0, 0)), 1, 0, Cell(0xffff_ffff, 0xffff, 0xffff));
            Present(wc, s2).tty.grid != Show(wc, s2.back)
  {
    var a := SetCell(s, 0, 0, Cell(wide, 0, 0));
    StepRests(wc, s, OpSetCell(0, 0, Cell(wide, 0, 0)));
    StepDrawable(wc, s, OpSetCell(0, 0, Cell(wide, 0, 0)));
    DrawableIsPaintable(wc, a);
    PresentShows(wc, a);
    var s1 := Present(wc, a);
    assert s1.tty.grid[0][0] == ShowAt(wc, a.back[0], 0) == WideL(wide, 0, 0);
    assert RestRow(wc, s1.front[0], s1.tty.grid[0]) && RestAt(wc, s1.front[0], s1.tty.grid[0], 0);
    var s2 := SetCell(SetCell(s1, 0, 0, Cell(SPACE, 0, 0)), 1, 0, INVALID);
    assert Screen(wc, s2) == Screen(wc, s1);
    assert !PaintableAt(wc, s2.back[0], s2.front[0], 1);
    assert !PaintableRow(wc, s2.back[0], s2.front[0]);
    PresentShowsExactly(wc, s2);
  }

  lemma {:induction false} InvalidAlone(wc: WidthFn, s: Tb)
    requires WidthTable(wc) && Shape(s) && s.w == s.h == 1 && s.back == [[INVALID]]
    ensures AllPaintable(wc, s)
  {
  }

  /** It does not fail where nothing covers the all-ones cell: that is shown, and shown again,
      as the replacement character. */
  lemma {:induction false} InvalidCellIsShown(wc: WidthFn, n: nat)
    requires WidthTable(wc)
    ensures var ops := [OpSetCell(0, 0, Cell(0xffff_ffff, 0xffff, 0xffff))] + seq(n, i => OpPresent);
            EachShows(wc, 1, 1, ops, n + 1) && After(wc, 1, 1, ops, n + 1).back == [[INVALID]]
  {
    var ops := [OpSetCell(0, 0, INVALID)] + seq(n, i => OpPresent);
    forall i | 0 <= i <= n + 1
      ensures var s := After(wc, 1, 1, ops, i); i > 0 ==> s.back == [[INVALID]] && AllPaintable(wc, s)
    {
      OneCell(wc, ops, i);
      if i > 0 {
        InvalidAlone(wc, After(wc, 1, 1, ops, i));
      }
    }
    EveryPresentShowsExactly(wc, 1, 1, ops, n + 1);
  }

  lemma {:induction false} OneCell(wc: WidthFn, ops: seq<Op>, i: nat)
    requires i <= |ops| && ops != [] && ops[0] == OpSetCell(0, 0, INVALID)
    requires forall k :: 0 < k < |ops| ==> ops[k] == OpPresent
    ensures var s := After(wc, 1, 1, ops, i); s.w == s.h == 1 && (i > 0 ==> s.back == [[INVALID]])
    decreases i
  {
    if i > 0 {
      OneCell(wc, ops, i - 1);
      AfterNext(wc, 1, 1, ops, i - 1);
      if i == 1 {
        var s := After(wc, 1, 1, ops, 0);
        assert s.back[0][0 := INVALID] == [INVALID];
      }
    }
  }
}
