/** The rule of the game of life on a bounded board, as a function of the set of live cells. */
module LifeSpec {
  datatype Cell = Cell(row: int, col: int)

  predicate OnBoard(p: Cell, rows: nat, cols: nat) {
    0 <= p.row < rows && 0 <= p.col < cols
  }

  /** At most n king's moves apart. */
  predicate Within(p: Cell, q: Cell, n: nat) {
    && p.row - q.row <= n && q.row - p.row <= n
    && p.col - q.col <= n && q.col - p.col <= n
  }

  function Around(live: set<Cell>, p: Cell): set<Cell> {
    set q | q in live && q != p && Within(p, q, 1)
  }

  predicate Lives(live: set<Cell>, p: Cell) {
    var n := |Around(live, p)|;
    if p in live then n == 2 || n == 3 else n == 3
  }

  function Next(live: set<Cell>, rows: nat, cols: nat): set<Cell> {
    set r, c | 0 <= r < rows && 0 <= c < cols && Lives(live, Cell(r, c)) :: Cell(r, c)
  }

  function Generation(live: set<Cell>, rows: nat, cols: nat, n: nat): set<Cell> {
    if n == 0 then live else Next(Generation(live, rows, cols, n - 1), rows, cols)
  }

  lemma {:induction false} InNext(live: set<Cell>, rows: nat, cols: nat, p: Cell)
    ensures p in Next(live, rows, cols) <==> OnBoard(p, rows, cols) && Lives(live, p)
  {
    assert p == Cell(p.row, p.col);
  }

  // ----- the rule by blocks

  /** The three by three cells around p, p among them. */
  function Block(live: set<Cell>, p: Cell): set<Cell> {
    set q | q in live && p.row - 1 <= q.row <= p.row + 1 && p.col - 1 <= q.col <= p.col + 1
  }

  /** A cell on the board is live next if and only if its block holds three live cells, or four
      with the cell itself among them. */
  lemma {:induction false} NextByBlocks(live: set<Cell>, rows: nat, cols: nat, p: Cell)
    requires OnBoard(p, rows, cols)
    ensures p in Next(live, rows, cols) <==> |Block(live, p)| == 3 || (|Block(live, p)| == 4 && p in live)
  {
    InNext(live, rows, cols, p);
    if p in live {
      assert Block(live, p) == Around(live, p) + {p};
    } else {
      assert Block(live, p) == Around(live, p);
    }
  }

  /** Nothing changes if and only if every live cell is on the board with three or four live cells
      in its block, and no other cell on the board has three. */
  lemma {:induction false} StillExactly(live: set<Cell>, rows: nat, cols: nat)
    ensures Next(live, rows, cols) == live <==>
            (forall p :: p in live ==> OnBoard(p, rows, cols) && 3 <= |Block(live, p)| <= 4) &&
            (forall p :: p !in live && OnBoard(p, rows, cols) ==> |Block(live, p)| != 3)
  {
    forall p
      ensures p in Next(live, rows, cols) <==>
              OnBoard(p, rows, cols) && (|Block(live, p)| == 3 || (|Block(live, p)| == 4 && p in live))
    {
      InNext(live, rows, cols, p);
      if OnBoard(p, rows, cols) {
        NextByBlocks(live, rows, cols, p);
      }
    }
  }

  // ----- mirroring

  /** Left to right, or upside down. */
  function Mirror(p: Cell, rows: nat, cols: nat, upsideDown: bool): Cell {
    if upsideDown then Cell(rows - 1 - p.row, p.col) else Cell(p.row, cols - 1 - p.col)
  }

  function MirrorAll(live: set<Cell>, rows: nat, cols: nat, upsideDown: bool): set<Cell> {
    set p | p in live :: Mirror(p, rows, cols, upsideDown)
  }

  lemma {:induction false} InMirror(live: set<Cell>, rows: nat, cols: nat, ud: bool, p: Cell)
    ensures p in MirrorAll(live, rows, cols, ud) <==> Mirror(p, rows, cols, ud) in live
  {
    var q := Mirror(p, rows, cols, ud);
    assert Mirror(q, rows, cols, ud) == p;
  }

  lemma {:induction false} MirrorSize(s: set<Cell>, rows: nat, cols: nat, ud: bool)
    ensures |MirrorAll(s, rows, cols, ud)| == |s|
    decreases |s|
  {
    if s != {} {
      var p :| p in s;
      var q := Mirror(p, rows, cols, ud);
      MirrorSize(s - {p}, rows, cols, ud);
      InMirror(s - {p}, rows, cols, ud, q);
      assert Mirror(q, rows, cols, ud) == p;
      assert MirrorAll(s, rows, cols, ud) == MirrorAll(s - {p}, rows, cols, ud) + {q};
    } else {
      assert MirrorAll(s, rows, cols, ud) == {};
    }
  }

  lemma {:induction false} MirrorAround(live: set<Cell>, rows: nat, cols: nat, ud: bool, p: Cell)
    ensures Around(MirrorAll(live, rows, cols, ud), Mirror(p, rows, cols, ud)) ==
            MirrorAll(Around(live, p), rows, cols, ud)
  {
    var m := MirrorAll(live, rows, cols, ud);
    forall q
      ensures q in Around(m, Mirror(p, rows, cols, ud)) <==> q in MirrorAll(Around(live, p), rows, cols, ud)
    {
      InMirror(live, rows, cols, ud, q);
      InMirror(Around(live, p), rows, cols, ud, q);
    }
  }

  lemma {:induction false} MirrorNext(live: set<Cell>, rows: nat, cols: nat, ud: bool)
    ensures Next(MirrorAll(live, rows, cols, ud), rows, cols) == MirrorAll(Next(live, rows, cols), rows, cols, ud)
  {
    var m := MirrorAll(live, rows, cols, ud);
    forall p
      ensures p in Next(m, rows, cols) <==> p in MirrorAll(Next(live, rows, cols), rows, cols, ud)
    {
      var q := Mirror(p, rows, cols, ud);
      InMirror(Next(live, rows, cols), rows, cols, ud, p);
      InNext(m, rows, cols, p);
      InNext(live, rows, cols, q);
      InMirror(live, rows, cols, ud, p);
      assert Mirror(q, rows, cols, ud) == p;
      MirrorAround(live, rows, cols, ud, q);
      MirrorSize(Around(live, q), rows, cols, ud);
    }
  }

  /** The board has no preferred side: n generations commute with mirroring, edges included. */
  lemma {:induction false} MirrorCommutes(live: set<Cell>, rows: nat, cols: nat, ud: bool, n: nat)
    ensures Generation(MirrorAll(live, rows, cols, ud), rows, cols, n)
         == MirrorAll(Generation(live, rows, cols, n), rows, cols, ud)
  {
    if n > 0 {
      MirrorCommutes(live, rows, cols, ud, n - 1);
      MirrorNext(Generation(live, rows, cols, n - 1), rows, cols, ud);
    }
  }

  // ----- locality

  ghost predicate Agree(a: set<Cell>, b: set<Cell>, p: Cell, n: nat) {
    forall q :: Within(p, q, n) ==> (q in a <==> q in b)
  }

  lemma {:induction false} AgreeNext(a: set<Cell>, b: set<Cell>, rows: nat, cols: nat, p: Cell, n: nat)
    requires Agree(a, b, p, n + 1)
    ensures Agree(Next(a, rows, cols), Next(b, rows, cols), p, n)
  {
    forall q | Within(p, q, n)
      ensures q in Next(a, rows, cols) <==> q in Next(b, rows, cols)
    {
      forall x
        ensures x in Around(a, q) <==> x in Around(b, q)
      {
        assert Within(q, x, 1) ==> Within(p, x, n + 1);
      }
      assert Around(a, q) == Around(b, q);
      assert Within(p, q, n + 1);
      InNext(a, rows, cols, q);
      InNext(b, rows, cols, q);
    }
  }

  /** After n generations a cell depends only on the cells within n king's moves. */
  lemma {:induction false} Local(a: set<Cell>, b: set<Cell>, rows: nat, cols: nat, p: Cell, n: nat, k: nat)
    requires k <= n && Agree(a, b, p, n)
    ensures Agree(Generation(a, rows, cols, k), Generation(b, rows, cols, k), p, n - k)
    ensures k == n ==> (p in Generation(a, rows, cols, n) <==> p in Generation(b, rows, cols, n))
  {
    if k > 0 {
      Local(a, b, rows, cols, p, n, k - 1);
      AgreeNext(Generation(a, rows, cols, k - 1), Generation(b, rows, cols, k - 1), rows, cols, p, n - k);
    }
    assert Within(p, p, n - k);
  }
}
