/** life/main.c: the board and the two character buffers, and the frames that are drawn. */
module Life {
  import opened LifeSpec

  /** The place of an index on the board. */
  function CellOf(k: int, cols: nat): Cell
    requires cols > 0
  {
    Cell(k / cols, k % cols)
  }

  /** The live cells among the first n. */
  function LiveBelow(b: seq<int>, cols: nat, n: nat): set<Cell>
    requires cols > 0 && n <= |b|
  {
    set k | 0 <= k < n && b[k] != 0 :: CellOf(k, cols)
  }

  lemma {:induction false} IndexSplits(row: int, col: int, cols: nat)
    requires 0 <= col < cols
    ensures CellOf(row * cols + col, cols) == Cell(row, col)
  {
    DivMod(row * cols + col, row, col, cols);
  }

  lemma {:induction false} MultipleGrows(x: int, d: nat)
    ensures x >= 1 ==> x * d >= d
    ensures x <= -1 ==> x * d <= -1 * d
  {
    if x >= 1 {
      assert x * d == (x - 1) * d + d;
    } else if x <= -1 {
      assert x * d == (x + 1) * d - d;
    }
  }

  lemma {:induction false} DivMod(k: int, q: int, r: int, d: nat)
    requires d > 0 && k == q * d + r && 0 <= r < d
    ensures k / d == q && k % d == r
  {
    var q', r' := k / d, k % d;
    assert k == q' * d + r' && 0 <= r' < d;
    assert (q - q') * d == q * d - q' * d;
    MultipleGrows(q - q', d);
  }

  lemma {:induction false} IndexInRange(row: int, col: int, rows: nat, cols: nat)
    requires 0 <= row < rows && 0 <= col < cols
    ensures 0 <= row * cols + col < rows * cols
  {
    assert row * cols <= (rows - 1) * cols;
    assert (rows - 1) * cols == rows * cols - cols;
  }

  lemma {:induction false} CellOnBoard(k: int, rows: nat, cols: nat)
    requires cols > 0 && 0 <= k < rows * cols
    ensures OnBoard(CellOf(k, cols), rows, cols) && k == (k / cols) * cols + k % cols
  {
    if k / cols >= rows {
      assert (k / cols) * cols >= rows * cols;
    }
  }

  lemma {:induction false} SameIndex(k: int, j: int, cols: nat)
    requires cols > 0 && CellOf(k, cols) == CellOf(j, cols)
    ensures k == j
  {
  }

  lemma {:induction false} LiveAt(b: seq<int>, cols: nat, n: nat, k: nat)
    requires cols > 0 && n <= |b| && k < |b|
    ensures CellOf(k, cols) in LiveBelow(b, cols, n) <==> k < n && b[k] != 0
  {
    if CellOf(k, cols) in LiveBelow(b, cols, n) {
      var j :| 0 <= j < n && b[j] != 0 && CellOf(j, cols) == CellOf(k, cols);
      SameIndex(k, j, cols);
    }
  }

  lemma {:induction false} LiveNext(b: seq<int>, cols: nat, n: nat)
    requires cols > 0 && n < |b| && 0 <= b[n] <= 1
    ensures |LiveBelow(b, cols, n + 1)| == |LiveBelow(b, cols, n)| + b[n]
  {
    LiveAt(b, cols, n, n);
    var s, t := LiveBelow(b, cols, n), LiveBelow(b, cols, n + 1);
    if b[n] == 0 {
      assert t == s;
    } else {
      assert t == s + {CellOf(n, cols)};
    }
  }

  /** The part of the neighbourhood of p that count_neighbors has seen before row, col. */
  function Seen(live: set<Cell>, p: Cell, row: int, col: int): set<Cell> {
    set q | q in Around(live, p) && (q.row < row || (q.row == row && q.col < col))
  }

  lemma {:induction false} SeenNext(live: set<Cell>, p: Cell, row: int, col: int)
    requires Within(p, Cell(row, col), 1)
    ensures |Seen(live, p, row, col + 1)| ==
            |Seen(live, p, row, col)| + if Cell(row, col) in live && Cell(row, col) != p then 1 else 0
  {
    var q := Cell(row, col);
    if q in live && q != p {
      assert Seen(live, p, row, col + 1) == Seen(live, p, row, col) + {q};
    } else {
      assert Seen(live, p, row, col + 1) == Seen(live, p, row, col);
    }
  }

  lemma {:induction false} SeenRow(live: set<Cell>, p: Cell, row: int)
    ensures Seen(live, p, row, p.col + 2) == Seen(live, p, row + 1, p.col - 1)
  {
  }

  lemma {:induction false} SeenEnds(live: set<Cell>, p: Cell)
    ensures Seen(live, p, p.row - 1, p.col - 1) == {}
    ensures Seen(live, p, p.row + 2, p.col - 1) == Around(live, p)
  {
  }

  ghost predicate ZeroOne(b: seq<int>) {
    forall k :: 0 <= k < |b| ==> 0 <= b[k] <= 1
  }

  method CountNeighbors(board: array<int>, rows: nat, cols: nat, row0: int, col0: int) returns (count: int)
    requires cols > 0 && board.Length == rows * cols && ZeroOne(board[..]) && OnBoard(Cell(row0, col0), rows, cols)
    ensures count == |Around(LiveBelow(board[..], cols, board.Length), Cell(row0, col0))|
  {
    ghost var live, p := LiveBelow(board[..], cols, board.Length), Cell(row0, col0);
    count := 0;
    var idx0 := row0 * cols + col0;
    SeenEnds(live, p);
    for row := row0 - 1 to row0 + 2
      invariant count == |Seen(live, p, row, col0 - 1)|
    {
      for col := col0 - 1 to col0 + 2
        invariant count == |Seen(live, p, row, col)|
      {
        var idx := row * cols + col;
        SeenNext(live, p, row, col);
        Examined(board[..], rows, cols, row, col, p);
        if col < 0 || col >= cols || row < 0 || row >= rows || idx == idx0 {
          continue;
        }
        count := count + board[idx];
      }
      SeenRow(live, p, row);
    }
  }

  lemma {:induction false} LiveCell(b: seq<int>, rows: nat, cols: nat, row: int, col: int)
    requires cols > 0 && |b| == rows * cols
    ensures var q, k := Cell(row, col), row * cols + col;
            if OnBoard(q, rows, cols)
            then 0 <= k < |b| && CellOf(k, cols) == q && (q in LiveBelow(b, cols, |b|) <==> b[k] != 0)
            else q !in LiveBelow(b, cols, |b|)
  {
    var q, k := Cell(row, col), row * cols + col;
    if OnBoard(q, rows, cols) {
      IndexInRange(row, col, rows, cols);
      IndexSplits(row, col, cols);
      LiveAt(b, cols, |b|, k);
    } else if q in LiveBelow(b, cols, |b|) {
      var j :| 0 <= j < |b| && b[j] != 0 && CellOf(j, cols) == q;
      CellOnBoard(j, rows, cols);
    }
  }

  /** What the test in the inner loop of count_neighbors finds out. */
  lemma {:induction false} Examined(b: seq<int>, rows: nat, cols: nat, row: int, col: int, p: Cell)
    requires cols > 0 && |b| == rows * cols && OnBoard(p, rows, cols)
    ensures var q, k := Cell(row, col), row * cols + col;
            if OnBoard(q, rows, cols)
            then 0 <= k < |b| && (k == p.row * cols + p.col <==> q == p) &&
                 (q in LiveBelow(b, cols, |b|) <==> b[k] != 0)
            else q !in LiveBelow(b, cols, |b|)
  {
    LiveCell(b, rows, cols, row, col);
    IndexSplits(p.row, p.col, cols);
  }

  /** The value of cell k after an update. */
  function NewValue(live: set<Cell>, k: int, cols: nat): int
    requires cols > 0
  {
    if Lives(live, CellOf(k, cols)) then 1 else 0
  }

  /** The first n cells of next are done, and count of them are live. */
  ghost predicate Updated(live: set<Cell>, next: seq<int>, cols: nat, n: int, count: int) {
    && cols > 0 && 0 <= n <= |next|
    && (forall k :: 0 <= k < n ==> next[k] == NewValue(live, k, cols))
    && count == |LiveBelow(next, cols, n)|
  }

  lemma {:induction false} UpdatedNext(live: set<Cell>, next: seq<int>, cols: nat, n: int, count: int, value: int)
    requires Updated(live, next, cols, n, count) && n < |next| && value == NewValue(live, n, cols)
    ensures Updated(live, next[n := value], cols, n + 1, count + value)
  {
    var next' := next[n := value];
    assert LiveBelow(next', cols, n) == LiveBelow(next, cols, n);
    LiveNext(next', cols, n);
  }

  lemma {:induction false} NewLive(b: seq<int>, live: set<Cell>, rows: nat, cols: nat)
    requires cols > 0 && |b| == rows * cols && forall k :: 0 <= k < |b| ==> b[k] == NewValue(live, k, cols)
    ensures LiveBelow(b, cols, |b|) == Next(live, rows, cols)
  {
    forall p
      ensures p in LiveBelow(b, cols, |b|) <==> p in Next(live, rows, cols)
    {
      InNext(live, rows, cols, p);
      LiveCell(b, rows, cols, p.row, p.col);
      assert p == Cell(p.row, p.col);
    }
  }

  /** The body of update's loop. */
  method UpdateCell(board: array<int>, next: array<int>, rows: nat, cols: nat, row: nat, col: nat)
    requires cols > 0 && board.Length == next.Length == rows * cols && ZeroOne(board[..]) && next != board
    requires row < rows && col < cols && 0 <= row * cols + col < next.Length
    modifies next
    ensures next[..] == old(next[..])[row * cols + col :=
                          NewValue(LiveBelow(board[..], cols, board.Length), row * cols + col, cols)]
  {
    IndexSplits(row, col, cols);
    var idx := row * cols + col;
    var count := CountNeighbors(board, rows, cols, row, col);
    LiveAt(board[..], cols, board.Length, idx);
    if board[idx] != 0 {
      next[idx] := if count > 1 && count < 4 then 1 else 0;
    } else {
      next[idx] := if count == 3 then 1 else 0;
    }
  }

  /** The loops of update: next holds the next generation, and the result is its size. */
  method NextBoard(board: array<int>, next: array<int>, rows: nat, cols: nat) returns (living: int)
    requires cols > 0 && board.Length == next.Length == rows * cols && ZeroOne(board[..]) && next != board
    modifies next
    ensures ZeroOne(next[..]) && living == |LiveBelow(next[..], cols, next.Length)|
    ensures LiveBelow(next[..], cols, next.Length) == Next(LiveBelow(board[..], cols, board.Length), rows, cols)
  {
    ghost var live := LiveBelow(board[..], cols, board.Length);
    living := 0;
    for row := 0 to rows
      invariant Updated(live, next[..], cols, row * cols, living)
    {
      living := UpdateRow(board, next, rows, cols, row, living);
      assert (row + 1) * cols == row * cols + cols;
    }
    NewLive(next[..], live, rows, cols);
  }

  method UpdateRow(board: array<int>, next: array<int>, rows: nat, cols: nat, row: nat, before: int)
    returns (living: int)
    requires cols > 0 && board.Length == next.Length == rows * cols && ZeroOne(board[..]) && next != board && row < rows
    requires Updated(LiveBelow(board[..], cols, board.Length), next[..], cols, row * cols, before)
    modifies next
    ensures Updated(LiveBelow(board[..], cols, board.Length), next[..], cols, row * cols + cols, living)
  {
    ghost var live, base := LiveBelow(board[..], cols, board.Length), row * cols;
    living := before;
    for col := 0 to cols
      invariant Updated(live, next[..], cols, base + col, living)
    {
      living := UpdateNext(board, next, rows, cols, row, col, living);
    }
  }

  method UpdateNext(board: array<int>, next: array<int>, rows: nat, cols: nat, row: nat, col: nat, before: int)
      returns (living: int)
    requires cols > 0 && board.Length == next.Length == rows * cols && ZeroOne(board[..]) && next != board
    requires row < rows && col < cols
    requires Updated(LiveBelow(board[..], cols, board.Length), next[..], cols, row * cols + col, before)
    modifies next
    ensures Updated(LiveBelow(board[..], cols, board.Length), next[..], cols, row * cols + col + 1, living)
  {
    IndexInRange(row, col, rows, cols);
    ghost var live := LiveBelow(board[..], cols, board.Length);
    var idx := row * cols + col;
    UpdatedNext(live, next[..], cols, idx, before, NewValue(live, idx, cols));
    UpdateCell(board, next, rows, cols, row, col);
    living := before + next[idx];
  }

  /** The characters printed so far, by place; the rest of the terminal is blank. */
  type Screen = map<Cell, char>

  /** An X exactly at every live cell. */
  ghost predicate ShowsX(screen: Screen, live: set<Cell>) {
    forall p :: p in live <==> p in screen && screen[p] == 'X'
  }

  /** Frame i shows generation i. */
  ghost predicate ShowHistory(frames: seq<Screen>, live: set<Cell>, rows: nat, cols: nat) {
    forall i :: 0 <= i < |frames| ==> ShowsX(frames[i], Generation(live, rows, cols, i))
  }

  lemma {:induction false} HistoryNext(frames: seq<Screen>, frame: Screen, live: set<Cell>, rows: nat, cols: nat)
    requires ShowHistory(frames, live, rows, cols) && ShowsX(frame, Generation(live, rows, cols, |frames|))
    ensures ShowHistory(frames + [frame], live, rows, cols)
    ensures Generation(live, rows, cols, |frames| + 1) == Next(Generation(live, rows, cols, |frames|), rows, cols)
  {
  }

  /** The screen shows the buffer, but may be blank where the buffer has a dot. */
  ghost predicate Displays(screen: Screen, buffer: seq<char>, cols: nat) {
    && cols > 0
    && (forall k :: 0 <= k < |buffer| ==>
          if CellOf(k, cols) in screen then screen[CellOf(k, cols)] == buffer[k] else buffer[k] == '.')
    && (forall p :: p in screen ==> exists k :: 0 <= k < |buffer| && p == CellOf(k, cols))
  }

  /** What draw_board puts in the buffer. */
  ghost predicate Draws(buffer: seq<char>, board: seq<int>) {
    && |buffer| == |board|
    && forall k :: 0 <= k < |board| ==> buffer[k] == if board[k] != 0 then 'X' else '.'
  }

  /** A buffer on the screen shows the board that was drawn into it. */
  lemma {:induction false} DrawnShows(screen: Screen, buffer: seq<char>, board: seq<int>, cols: nat)
    requires Displays(screen, buffer, cols) && Draws(buffer, board)
    ensures ShowsX(screen, LiveBelow(board, cols, |board|))
  {
    forall p
      ensures p in LiveBelow(board, cols, |board|) <==> p in screen && screen[p] == 'X'
    {
      if p in screen {
        var k :| 0 <= k < |buffer| && p == CellOf(k, cols);
        LiveAt(board, cols, |board|, k);
      }
    }
  }

  /** The first i characters from one buffer, and the rest from another. */
  function Merged(target: seq<char>, shown: seq<char>, i: nat): seq<char>
    requires i <= |target| == |shown|
  {
    target[..i] + shown[i..]
  }

  lemma {:induction false} MergedNext(target: seq<char>, shown: seq<char>, i: nat)
    requires i < |target| == |shown|
    ensures Merged(target, shown, i)[i := target[i]] == Merged(target, shown, i + 1)
    ensures target[i] == shown[i] ==> Merged(target, shown, i) == Merged(target, shown, i + 1)
  {
  }

  /** One step of the diff loop: a changed character is printed. */
  lemma {:induction false} PrintOne(screen: Screen, shown: seq<char>, cols: nat, k: nat, c: char)
    requires Displays(screen, shown, cols) && k < |shown| && CellOf(k, cols) == Cell(k / cols, k % cols)
    ensures Displays(screen[Cell(k / cols, k % cols) := c], shown[k := c], cols)
  {
    var s, b := screen[CellOf(k, cols) := c], shown[k := c];
    forall j | 0 <= j < |b|
      ensures if CellOf(j, cols) in s then s[CellOf(j, cols)] == b[j] else b[j] == '.'
    {
      if CellOf(j, cols) == CellOf(k, cols) {
        SameIndex(j, k, cols);
      }
    }
  }

  class Game {
    const rows: nat
    const cols: nat
    const size: nat
    var board: array<int>
    var livingCells: int
    var front: array<char>
    var back: array<char>
    var screen: Screen

    ghost predicate Valid()
      reads this, board, front, back
    {
      && cols > 0 && size == rows * cols
      && board.Length == size && front.Length == size && back.Length == size
      && front != back
      && ZeroOne(board[..]) && Displays(screen, front[..], cols)
    }

    ghost function Live(): set<Cell>
      requires Valid()
      reads this, board, front, back
    {
      LiveBelow(board[..], cols, board.Length)
    }

    constructor (rows: nat, cols: nat)
      requires cols > 0
      ensures Valid() && fresh(board) && fresh(front) && fresh(back)
      ensures this.rows == rows && this.cols == cols && Live() == {} && screen == map[]
    {
      this.rows, this.cols := rows, cols;
      var size := rows * cols;
      this.size := size;
      board := new int[size](_ => 0);
      livingCells := 0;
      front := new char[size](_ => '.');
      back := new char[size](_ => '.');
      screen := map[];
      new;
      assert LiveBelow(board[..], cols, board.Length) == {};
    }

    /** set_cell */
    method SetCell(row: int, col: int)
      requires Valid() && OnBoard(Cell(row, col), rows, cols)
      modifies board
      ensures Valid() && Live() == old(Live()) + {Cell(row, col)}
    {
      IndexInRange(row, col, rows, cols);
      ghost var was := board[..];
      board[row * cols + col] := 1;
      forall p
        ensures p in Live() <==> p in LiveBelow(was, cols, |was|) || p == Cell(row, col)
      {
        LiveCell(board[..], rows, cols, p.row, p.col);
        LiveCell(was, rows, cols, p.row, p.col);
        LiveCell(was, rows, cols, row, col);
        assert p == Cell(p.row, p.col);
      }
    }

    /** update: one generation, and the number of its live cells. */
    method Update()
      requires Valid()
      modifies `livingCells, board
      ensures Valid() && Live() == Next(old(Live()), rows, cols) && livingCells == |Live()|
    {
      ghost var was := board[..];
      var next := new int[size];
      forall k | 0 <= k < size {
        next[k] := board[k];
      }
      assert board[..] == was;
      livingCells := NextBoard(board, next, rows, cols);
      assert board[..] == was;
      ghost var b := next[..];
      forall k | 0 <= k < size {
        board[k] := next[k];
      }
      assert board[..] == b;
    }

    method DrawBoard()
      requires Valid()
      modifies back
      ensures Valid() && Draws(back[..], board[..]) && board[..] == old(board[..])
    {
      ghost var shown := front[..];
      for idx := 0 to size
        invariant front[..] == shown
        invariant forall k :: 0 <= k < idx ==> back[k] == if board[k] != 0 then 'X' else '.'
      {
        if board[idx] != 0 {
          back[idx] := 'X';
        } else {
          back[idx] := '.';
        }
      }
    }

    /** The two buffers, in either order. */
    ghost predicate Swapped(a: array<char>, b: array<char>)
      reads this
    {
      (front == a && back == b) || (front == b && back == a)
    }

    /** The diff loop. */
    method PrintChanges()
      requires Valid()
      modifies `screen
      ensures Displays(screen, back[..], cols)
    {
      ghost var shown, target := front[..], back[..];
      for i := 0 to size
        invariant Displays(screen, Merged(target, shown, i), cols)
      {
        PrintOne(screen, Merged(target, shown, i), cols, i, back[i]);
        MergedNext(target, shown, i);
        if back[i] != front[i] {
          var x := i % cols;
          var y := i / cols;
          screen := screen[Cell(y, x) := back[i]];
        }
      }
      assert Merged(target, shown, size) == target;
    }

    /** A frame: the board is drawn in the back buffer, and what differs from the front is
        printed. Then the buffers change places, and the board is updated. */
    method Turn() returns (ghost frame: Screen)
      requires Valid()
      modifies this, board, front, back
      ensures Valid() && board == old(board) && Swapped(old(front), old(back))
      ensures ShowsX(frame, old(Live()))
      ensures Live() == Next(old(Live()), rows, cols) && livingCells == |Live()|
    {
      ClearBack();
      DrawBoard();
      PrintChanges();
      frame := screen;
      DrawnShows(screen, back[..], board[..], cols);
      var temp := front;
      front := back;
      back := temp;
      Update();
    }

    method ClearBack()
      requires Valid()
      modifies back
      ensures Valid() && board[..] == old(board[..])
    {
      ghost var shown := front[..];
      forall k | 0 <= k < size {
        back[k] := '.';
      }
      assert front[..] == shown;
    }

    /** main's loop, for n generations: every frame shows X exactly at the cells that are live. */
    method Play(n: nat) returns (ghost frames: seq<Screen>)
      requires Valid()
      modifies this, board, front, back
      ensures Valid() && Live() == Generation(old(Live()), rows, cols, n)
      ensures n > 0 ==> livingCells == |Live()|
      ensures |frames| == n && ShowHistory(frames, old(Live()), rows, cols)
    {
      frames := [];
      ghost var live := Live();
      for i := 0 to n
        invariant Valid() && board == old(board) && Swapped(old(front), old(back))
        invariant Live() == Generation(live, rows, cols, i)
        invariant i > 0 ==> livingCells == |Live()|
        invariant |frames| == i && ShowHistory(frames, live, rows, cols)
      {
        ghost var frame := Turn();
        HistoryNext(frames, frame, live, rows, cols);
        frames := frames + [frame];
      }
    }
  }
}
