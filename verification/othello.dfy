/** The Othello (Reversi) rules engine: board construction, the directional
    capture search, move enumeration, move application, scoring and the
    end-of-game test. */
module OthelloGame {
  import opened Wrappers
  import opened Position

  /** The state of one board cell. */
  datatype Cell = Empty | White | Black

  /** The two failures the engine raises. */
  datatype Error = InvalidBoardSize | OutOfRange

  /** The eight compass directions a capture is searched along; row numbers
      grow downwards and column numbers to the right. */
  datatype Direction = Up | Down | Left | Right | UpLeft | UpRight | DownLeft | DownRight
  {
    /** Row step of one move in this direction. */
    function DRow(): int {
      match this
      case Up | UpLeft | UpRight => -1
      case Down | DownLeft | DownRight => 1
      case Left | Right => 0
    }

    /** Column step of one move in this direction. */
    function DCol(): int {
      match this
      case Left | UpLeft | DownLeft => -1
      case Right | UpRight | DownRight => 1
      case Up | Down => 0
    }
  }

  /** The eight search directions in the order the move list visits them. */
  const Directions: seq<Direction> := [Up, Down, Left, Right, UpLeft, UpRight, DownLeft, DownRight]

  /** The place of `d` in `Directions`. */
  function DirectionIndex(d: Direction): (k: nat)
    ensures k < |Directions| && Directions[k] == d
  {
    match d
    case Up => 0
    case Down => 1
    case Left => 2
    case Right => 3
    case UpLeft => 4
    case UpRight => 5
    case DownLeft => 6
    case DownRight => 7
  }

  /** A capture found by the directional search: the empty landing cell, the
      direction searched, the number of pieces captured and the captured
      pieces in the order the search met them. */
  datatype Move = Move(pos: Pos, dir: Direction, points: nat, pieces: seq<Pos>)

  /** The colour that plays after `c`; anything but Black is followed by Black. */
  function Toggle(c: Cell): Cell {
    if c == Black then White else Black
  }

  /** The position `k` steps from (row, col) along `d`. */
  function At(d: Direction, row: int, col: int, k: int): Pos {
    match d
    case Up => Pos(row - k, col)
    case Down => Pos(row + k, col)
    case Left => Pos(row, col - k)
    case Right => Pos(row, col + k)
    case UpLeft => Pos(row - k, col - k)
    case UpRight => Pos(row - k, col + k)
    case DownLeft => Pos(row + k, col - k)
    case DownRight => Pos(row + k, col + k)
  }

  /** `At` moves `k` times the direction's row and column steps. */
  lemma AtOffsets(d: Direction, row: int, col: int, k: int)
    ensures At(d, row, col, k) == Pos(row + k * d.DRow(), col + k * d.DCol())
  {
  }

  /** The first `len` positions of the ray from (row, col) along `d`. */
  function Run(d: Direction, row: int, col: int, len: nat): seq<Pos> {
    seq(len, k => At(d, row, col, k))
  }

  lemma AtShift(d: Direction, row: int, col: int, k: int)
    ensures At(d, row + d.DRow(), col + d.DCol(), k) == At(d, row, col, k + 1)
  {
    match d
    case Up =>
    case Down =>
    case Left =>
    case Right =>
    case UpLeft =>
    case UpRight =>
    case DownLeft =>
    case DownRight =>
  }

  lemma AtRebase(d: Direction, row: int, col: int, len: int, k: int)
    ensures At(d, At(d, row, col, len).x, At(d, row, col, len).y, k - len) == At(d, row, col, k)
  {
    match d
    case Up =>
    case Down =>
    case Left =>
    case Right =>
    case UpLeft =>
    case UpRight =>
    case DownLeft =>
    case DownRight =>
  }

  lemma RunShift(d: Direction, row: int, col: int, len: nat)
    requires len >= 1
    ensures Run(d, row, col, len) == [Pos(row, col)] + Run(d, row + d.DRow(), col + d.DCol(), len - 1)
  {
    var tail := Run(d, row + d.DRow(), col + d.DCol(), len - 1);
    forall k | 0 <= k < len
      ensures Run(d, row, col, len)[k] == ([Pos(row, col)] + tail)[k]
    {
      if k > 0 {
        AtShift(d, row, col, k - 1);
      }
    }
  }

  /** The lists of `xss` joined end to end, in order. */
  function Flatten<T>(xss: seq<seq<T>>): seq<T> {
    if |xss| == 0 then [] else Flatten(xss[..|xss| - 1]) + xss[|xss| - 1]
  }

  lemma FlattenSnoc<T>(xss: seq<seq<T>>, ys: seq<T>)
    ensures Flatten(xss + [ys]) == Flatten(xss) + ys
  {
    assert (xss + [ys])[..|xss|] == xss;
  }

  /** Joining one more list onto a join extends it by that list. */
  lemma FlattenStep<T>(xss: seq<seq<T>>, ys: seq<T>, xs: seq<T>, xs': seq<T>, xss': seq<seq<T>>)
    requires xs == Flatten(xss) && xs' == xs + ys && xss' == xss + [ys]
    ensures xs' == Flatten(xss')
  {
    FlattenSnoc(xss, ys);
  }

  /** The list of `xss` that an element of their join comes from. */
  lemma {:induction false} FlattenPick<T>(xss: seq<seq<T>>, x: T) returns (k: nat)
    requires x in Flatten(xss)
    ensures k < |xss| && x in xss[k]
  {
    var n := |xss| - 1;
    if x in Flatten(xss[..n]) {
      k := FlattenPick(xss[..n], x);
      assert xss[..n][k] == xss[k];
    } else {
      k := n;
    }
  }

  /** An element of one of the lists of `xss` is an element of their join. */
  lemma {:induction false} FlattenHas<T>(xss: seq<seq<T>>, k: nat, x: T)
    requires k < |xss| && x in xss[k]
    ensures x in Flatten(xss)
  {
    var n := |xss| - 1;
    if k < n {
      assert xss[..n][k] == xss[k];
      FlattenHas(xss[..n], k, x);
    }
  }

  /** Extending the last part of a two-part list extends the list. */
  lemma AppendRegroup<T>(front: seq<T>, part: seq<T>, more: seq<T>, part': seq<T>)
    requires part' == part + more
    ensures front + part + more == front + part'
  {
  }

  /** Appending eight single entries one after another appends the eight-entry list. */
  lemma ConcatEight<T>(s: seq<T>, a: T, b: T, c: T, d: T, e: T, f: T, g: T, h: T)
    ensures s + [a] + [b] + [c] + [d] + [e] + [f] + [g] + [h] == s + [a, b, c, d, e, f, g, h]
  {
  }

  /** True when `entry` is a candidate whose landing cell is `target`. */
  predicate Lands(entry: Option<Move>, target: Pos) {
    entry.Some? && entry.value.pos.Equals(target)
  }

  /** True when some candidate of `moves` lands on `target`. */
  ghost predicate IsTarget(moves: seq<Option<Move>>, target: Pos) {
    exists k :: 0 <= k < |moves| && Lands(moves[k], target)
  }

  /** True when `moves` holds at least one candidate (a non-None entry). */
  ghost predicate HasCandidate(moves: seq<Option<Move>>) {
    exists k :: 0 <= k < |moves| && moves[k].Some?
  }

  /** The pieces one entry flips when `target` is played. */
  ghost function CapturedBy(entry: Option<Move>, target: Pos): set<Pos> {
    if Lands(entry, target) then set q | q in entry.value.pieces else {}
  }

  /** The union of the pieces of every candidate landing on `target`. */
  ghost function Captures(moves: seq<Option<Move>>, target: Pos): set<Pos> {
    if moves == [] then {}
    else Captures(moves[..|moves| - 1], target) + CapturedBy(moves[|moves| - 1], target)
  }

  lemma {:induction false} CapturesAreCandidatePieces(moves: seq<Option<Move>>, target: Pos, p: Pos)
    ensures p in Captures(moves, target) <==>
            exists k :: 0 <= k < |moves| && Lands(moves[k], target) && p in moves[k].value.pieces
  {
    if moves != [] {
      var init := moves[..|moves| - 1];
      CapturesAreCandidatePieces(init, target, p);
      if p in Captures(moves, target) {
        if p in Captures(init, target) {
          var k :| 0 <= k < |init| && Lands(init[k], target) && p in init[k].value.pieces;
          assert moves[k] == init[k];
        } else {
          assert Lands(moves[|moves| - 1], target) && p in moves[|moves| - 1].value.pieces;
        }
      }
      if exists k :: 0 <= k < |moves| && Lands(moves[k], target) && p in moves[k].value.pieces {
        var k :| 0 <= k < |moves| && Lands(moves[k], target) && p in moves[k].value.pieces;
        if k < |moves| - 1 {
          assert init[k] == moves[k];
        }
      }
    }
  }

  /** Extending a prefix of the move list by one entry adds that entry's landing and captures. */
  lemma TargetsOfPrefix(moves: seq<Option<Move>>, i: int, target: Pos)
    requires 0 <= i < |moves|
    ensures IsTarget(moves[..i + 1], target) <==> IsTarget(moves[..i], target) || Lands(moves[i], target)
    ensures Captures(moves[..i + 1], target) == Captures(moves[..i], target) + CapturedBy(moves[i], target)
  {
    var next := moves[..i + 1];
    assert next[..i] == moves[..i];
    if IsTarget(next, target) {
      var k :| 0 <= k < |next| && Lands(next[k], target);
      if k < i {
        assert moves[..i][k] == next[k];
      }
    }
    if IsTarget(moves[..i], target) {
      var k :| 0 <= k < i && Lands(moves[..i][k], target);
      assert next[k] == moves[..i][k];
    }
    assert next[i] == moves[i];
  }

  /** With no candidate landing on `target`, playing it captures nothing. */
  lemma NoTargetNoCaptures(moves: seq<Option<Move>>, target: Pos)
    requires !IsTarget(moves, target)
    ensures Captures(moves, target) == {}
  {
    forall p | p in Captures(moves, target)
      ensures false
    {
      CapturesAreCandidatePieces(moves, target, p);
    }
  }

  class Othello {
    const boardSize: int
    const board: array2<Cell>
    var curPlayer: Cell

    /** The board is a square of even side at least 4. */
    ghost predicate WellSized() {
      && boardSize >= 4 && boardSize % 2 == 0
      && board.Length0 == boardSize && board.Length1 == boardSize
    }

    /** Object invariant: a well-sized board and a player that is a colour. */
    ghost predicate Valid()
      reads this
    {
      WellSized() && (curPlayer == Black || curPlayer == White)
    }

    /** The opening layout: the two central cells of one diagonal White, the
        two of the other Black, every other cell Empty. */
    ghost predicate IsOpening()
      requires WellSized()
      reads board
    {
      var m := boardSize / 2;
      forall r, c :: 0 <= r < boardSize && 0 <= c < boardSize ==>
        board[r, c] == (if (r == m && c == m) || (r == m - 1 && c == m - 1) then White
                        else if (r == m && c == m - 1) || (r == m - 1 && c == m) then Black
                        else Empty)
    }

    constructor (boardSize: int)
      requires boardSize % 2 == 0 && boardSize >= 4
      ensures Valid() && fresh(board)
      ensures this.boardSize == boardSize && curPlayer == Black
      ensures IsOpening()
    {
      this.boardSize := boardSize;
      board := new Cell[boardSize, boardSize]((i, j) => Empty);
      new;
      var cell := boardSize / 2;
      board[cell, cell] := White;
      board[cell - 1, cell - 1] := White;
      board[cell, cell - 1] := Black;
      board[cell - 1, cell] := Black;
      curPlayer := Black;
    }

    /** Starts a game, raising InvalidBoardSize for an odd or too small size. */
    static method New(boardSize: int) returns (r: Result<Othello, Error>)
      ensures r.Failure? <==> boardSize % 2 == 1 || boardSize < 4
      ensures r.Failure? ==> r.error == InvalidBoardSize
      ensures r.Success? ==>
                && fresh(r.value) && fresh(r.value.board) && r.value.Valid()
                && r.value.boardSize == boardSize && r.value.curPlayer == Black
                && r.value.IsOpening()
    {
      if boardSize % 2 == 1 || boardSize < 4 {
        return Failure(InvalidBoardSize);
      }
      var game := new Othello(boardSize);
      return Success(game);
    }

    function OutOfBounds(row: int, col: int): (out: bool)
      ensures !out <==> 0 <= row < boardSize && 0 <= col < boardSize
    {
      row >= boardSize || col >= boardSize || row < 0 || col < 0
    }

    /** How far (row or column) coordinate `k` may still move by `delta`;
        the termination measure of the search. */
    function Reach(delta: int, k: int): int {
      if delta == 1 then boardSize - k else if delta == -1 then k + 1 else 0
    }

    /** The directional capture search: walks from (row, col) along `d`,
        collecting cells of neither Empty nor colour `c`, until it leaves the
        board (None), meets colour `c` (None) or meets an Empty cell, which is
        a landing cell when at least one piece was collected. */
    function Search(d: Direction, row: int, col: int, points: nat, pieces: seq<Pos>, c: Cell): (r: Option<Move>)
      requires WellSized()
      reads board
      ensures r.Some? ==> r.value.dir == d && r.value.points >= 1
      decreases Reach(d.DRow(), row) + Reach(d.DCol(), col)
    {
      if OutOfBounds(row, col) then None
      else if board[row, col] == Empty then
        if points == 0 then None else Some(Move(Pos(row, col), d, points, pieces))
      else if board[row, col] == c then None
      else Search(d, row + d.DRow(), col + d.DCol(), points + 1, pieces + [Pos(row, col)], c)
    }

    /** The search started next to the piece at (i, j). */
    function SearchFrom(d: Direction, i: int, j: int, c: Cell): Option<Move>
      requires WellSized()
      reads board
    {
      Search(d, i + d.DRow(), j + d.DCol(), 0, [], c)
    }

    /** Position `p` is on the board and Empty. */
    ghost predicate IsEmptyCell(p: Pos)
      requires WellSized()
      reads board
    {
      !OutOfBounds(p.x, p.y) && board[p.x, p.y] == Empty
    }

    /** Position `p` is on the board and holds a piece of a colour other than `c`. */
    ghost predicate Opposes(p: Pos, c: Cell)
      requires WellSized()
      reads board
    {
      !OutOfBounds(p.x, p.y) && board[p.x, p.y] != Empty && board[p.x, p.y] != c
    }

    /** The first `len` cells from (row, col) along `d` all oppose `c`. */
    ghost predicate Capturable(d: Direction, row: int, col: int, len: nat, c: Cell)
      requires WellSized()
      reads board
    {
      forall k :: 0 <= k < len ==> Opposes(At(d, row, col, k), c)
    }

    /** A well-formed capture for colour `c`: the landing cell is Empty, the
        count matches the pieces, there is at least one, they all oppose `c`,
        and they lie in a line behind the landing cell, the last one a single
        step before it. */
    ghost predicate IsCandidate(m: Move, c: Cell)
      requires WellSized()
      reads board
    {
      && IsEmptyCell(m.pos)
      && m.points == |m.pieces| >= 1
      && forall k :: 0 <= k < |m.pieces| ==>
           m.pieces[k] == At(m.dir, m.pos.x, m.pos.y, k - m.points) && Opposes(m.pieces[k], c)
    }

    /** A run of `len` opposing cells starts with the first cell and goes on
        one step further along. */
    lemma CapturableShift(d: Direction, row: int, col: int, len: nat, c: Cell)
      requires WellSized() && len >= 1
      ensures Capturable(d, row, col, len, c) <==>
              Opposes(Pos(row, col), c) && Capturable(d, row + d.DRow(), col + d.DCol(), len - 1, c)
    {
      var row', col' := row + d.DRow(), col + d.DCol();
      assert At(d, row, col, 0) == Pos(row, col);
      forall k | 0 <= k < len - 1
        ensures At(d, row', col', k) == At(d, row, col, k + 1)
      {
        AtShift(d, row, col, k);
      }
      if Opposes(Pos(row, col), c) && Capturable(d, row', col', len - 1, c) {
        forall k | 0 <= k < len
          ensures Opposes(At(d, row, col, k), c)
        {
          if k > 0 {
            AtShift(d, row, col, k - 1);
          }
        }
      }
    }

    /** `m` is what a search started at (row, col) with `points` and `pieces`
        already collected returns after walking `m.points - points` further
        pieces: every one of them opposes `c`, the cell after them is empty,
        and `m` lands there with the walked cells appended. */
    ghost predicate FoundRun(d: Direction, row: int, col: int, points: nat, pieces: seq<Pos>, c: Cell, m: Move)
      requires WellSized()
      reads board
    {
      var len := m.points - points;
      && len >= 0
      && Capturable(d, row, col, len, c)
      && IsEmptyCell(At(d, row, col, len))
      && m == Move(At(d, row, col, len), d, points + len, pieces + Run(d, row, col, len))
    }

    lemma {:induction false} SearchSound(d: Direction, row: int, col: int, points: nat, pieces: seq<Pos>, c: Cell)
      requires WellSized()
      ensures var r := Search(d, row, col, points, pieces, c);
              r.Some? ==> FoundRun(d, row, col, points, pieces, c, r.value)
      decreases Reach(d.DRow(), row) + Reach(d.DCol(), col)
    {
      var r := Search(d, row, col, points, pieces, c);
      if r.Some? {
        if board[row, col] == Empty {
          SearchLandsHere(d, row, col, points, pieces, c);
        } else {
          var row', col' := row + d.DRow(), col + d.DCol();
          var pieces' := pieces + [Pos(row, col)];
          SearchSound(d, row', col', points + 1, pieces', c);
          SearchSoundStep(d, row, col, points, pieces, c, r.value);
        }
      }
    }

    /** The base case of SearchSound: an Empty first cell after at least one
        piece is the landing cell, with nothing further collected. */
    lemma SearchLandsHere(d: Direction, row: int, col: int, points: nat, pieces: seq<Pos>, c: Cell)
      requires WellSized() && IsEmptyCell(Pos(row, col)) && points >= 1
      ensures Search(d, row, col, points, pieces, c).Some?
      ensures FoundRun(d, row, col, points, pieces, c, Search(d, row, col, points, pieces, c).value)
    {
      assert At(d, row, col, 0) == Pos(row, col);
      assert Run(d, row, col, 0) == [];
      assert pieces + [] == pieces;
    }

    /** The inductive step of SearchSound: a capture found one cell further
        on, after an opposing cell, is a capture from here one piece longer. */
    lemma SearchSoundStep(d: Direction, row: int, col: int, points: nat, pieces: seq<Pos>, c: Cell, m: Move)
      requires WellSized() && Opposes(Pos(row, col), c)
      requires FoundRun(d, row + d.DRow(), col + d.DCol(), points + 1, pieces + [Pos(row, col)], c, m)
      ensures m.points - points >= 1 && FoundRun(d, row, col, points, pieces, c, m)
    {
      var row', col', len := row + d.DRow(), col + d.DCol(), m.points - points;
      CapturableShift(d, row, col, len, c);
      AtShift(d, row, col, len - 1);
      RunShift(d, row, col, len);
      assert pieces + [Pos(row, col)] + Run(d, row', col', len - 1) == pieces + Run(d, row, col, len);
    }

    lemma {:induction false} SearchComplete(d: Direction, row: int, col: int, points: nat, pieces: seq<Pos>, c: Cell, len: nat)
      requires WellSized()
      requires Capturable(d, row, col, len, c) && IsEmptyCell(At(d, row, col, len))
      requires points + len >= 1
      ensures Search(d, row, col, points, pieces, c)
              == Some(Move(At(d, row, col, len), d, points + len, pieces + Run(d, row, col, len)))
      decreases len
    {
      if len == 0 {
        assert At(d, row, col, 0) == Pos(row, col);
        assert Run(d, row, col, 0) == [];
        assert pieces + [] == pieces;
      } else {
        var row', col' := row + d.DRow(), col + d.DCol();
        CapturableShift(d, row, col, len, c);
        AtShift(d, row, col, len - 1);
        SearchComplete(d, row', col', points + 1, pieces + [Pos(row, col)], c, len - 1);
        RunShift(d, row, col, len);
        assert pieces + [Pos(row, col)] + Run(d, row', col', len - 1) == pieces + Run(d, row, col, len);
      }
    }

    lemma {:induction false} SearchStops(d: Direction, row: int, col: int, points: nat, pieces: seq<Pos>, c: Cell, len: nat)
      requires WellSized()
      requires Capturable(d, row, col, len, c)
      requires var p := At(d, row, col, len);
               || OutOfBounds(p.x, p.y)
               || (board[p.x, p.y] == c && c != Empty)
               || (len == 0 && points == 0 && IsEmptyCell(Pos(row, col)))
      ensures Search(d, row, col, points, pieces, c) == None
      decreases len
    {
      assert At(d, row, col, 0) == Pos(row, col);
      if len > 0 {
        var row', col' := row + d.DRow(), col + d.DCol();
        CapturableShift(d, row, col, len, c);
        AtShift(d, row, col, len - 1);
        SearchStops(d, row', col', points + 1, pieces + [Pos(row, col)], c, len - 1);
      }
    }

    /** A run of opposing cells found one step from (i, j), seen from (i, j):
        the pieces sit at steps 1 .. len and the landing cell at step len + 1. */
    lemma RayOfRun(d: Direction, i: int, j: int, c: Cell, m: Move)
      requires WellSized()
      requires var row, col := i + d.DRow(), j + d.DCol();
               && Capturable(d, row, col, m.points, c)
               && IsEmptyCell(At(d, row, col, m.points))
               && m == Move(At(d, row, col, m.points), d, m.points, Run(d, row, col, m.points))
      ensures |m.pieces| == m.points
      ensures forall k :: 0 <= k < |m.pieces| ==> m.pieces[k] == At(d, i, j, k + 1) && Opposes(m.pieces[k], c)
      ensures m.pos == At(d, i, j, m.points + 1) && IsEmptyCell(m.pos)
    {
      var row, col := i + d.DRow(), j + d.DCol();
      AtShift(d, i, j, m.points);
      forall k | 0 <= k < |m.pieces|
        ensures m.pieces[k] == At(d, i, j, k + 1) && Opposes(m.pieces[k], c)
      {
        assert m.pieces[k] == At(d, row, col, k);
        AtShift(d, i, j, k);
      }
    }

    /** Pieces in a line from (i, j), with the landing cell one step past the
        last of them, form a well-formed capture. */
    lemma RayIsCandidate(i: int, j: int, c: Cell, m: Move)
      requires WellSized()
      requires m.points == |m.pieces| >= 1
      requires forall k :: 0 <= k < |m.pieces| ==> m.pieces[k] == At(m.dir, i, j, k + 1) && Opposes(m.pieces[k], c)
      requires m.pos == At(m.dir, i, j, m.points + 1) && IsEmptyCell(m.pos)
      ensures IsCandidate(m, c)
    {
      forall k | 0 <= k < |m.pieces|
        ensures m.pieces[k] == At(m.dir, m.pos.x, m.pos.y, k - m.points)
      {
        AtRebase(m.dir, i, j, m.points + 1, k + 1);
      }
    }

    /** The search as started next to a piece finds exactly a well-formed
        capture: pieces in order along the ray, the landing cell one step past
        the last of them. */
    lemma SearchFromFindsCapture(d: Direction, i: int, j: int, c: Cell)
      requires WellSized()
      ensures var r := SearchFrom(d, i, j, c);
              r.Some? ==>
                && r.value.dir == d
                && r.value.points == |r.value.pieces| >= 1
                && (forall k :: 0 <= k < |r.value.pieces| ==>
                      r.value.pieces[k] == At(d, i, j, k + 1) && Opposes(r.value.pieces[k], c))
                && r.value.pos == At(d, i, j, r.value.points + 1)
                && IsCandidate(r.value, c)
    {
      var row, col := i + d.DRow(), j + d.DCol();
      SearchSound(d, row, col, 0, [], c);
      var r := SearchFrom(d, i, j, c);
      if r.Some? {
        var m := r.value;
        assert [] + Run(d, row, col, m.points) == Run(d, row, col, m.points);
        RayOfRun(d, i, j, c, m);
        RayIsCandidate(i, j, c, m);
      }
    }

    // ---------------------------------------------------------------------
    // Move enumeration

    /** The eight searches from the piece at (i, j) when it has colour `c`,
        in the fixed direction order; nothing for any other cell. */
    ghost function CellMoves(i: int, j: int, c: Cell): seq<Option<Move>>
      requires WellSized() && 0 <= i < boardSize && 0 <= j < boardSize
      reads board
    {
      if board[i, j] == c then SearchesFrom(i, j, c, |Directions|) else []
    }

    /** The searches from (i, j) along the first `k` of `Directions`, in order. */
    ghost function SearchesFrom(i: int, j: int, c: Cell, k: nat): seq<Option<Move>>
      requires WellSized() && k <= |Directions|
      reads board
    {
      if k == 0 then [] else SearchesFrom(i, j, c, k - 1) + [SearchFrom(Directions[k - 1], i, j, c)]
    }

    lemma {:induction false} SearchesFromAt(i: int, j: int, c: Cell, k: nat)
      requires WellSized() && k <= |Directions|
      ensures |SearchesFrom(i, j, c, k)| == k
      ensures forall t :: 0 <= t < k ==> SearchesFrom(i, j, c, k)[t] == SearchFrom(Directions[t], i, j, c)
    {
      if k > 0 {
        SearchesFromAt(i, j, c, k - 1);
      }
    }

    /** The entries of cells (i, 0) .. (i, j - 1), left to right. */
    ghost function RowMoves(i: int, j: int, c: Cell): seq<Option<Move>>
      requires WellSized() && 0 <= i < boardSize && 0 <= j <= boardSize
      reads board
      decreases j
    {
      if j == 0 then [] else RowMoves(i, j - 1, c) + CellMoves(i, j - 1, c)
    }

    /** The entries of rows 0 .. i - 1, top to bottom. */
    ghost function RowsMoves(i: int, c: Cell): seq<Option<Move>>
      requires WellSized() && 0 <= i <= boardSize
      reads board
      decreases i
    {
      if i == 0 then [] else RowsMoves(i - 1, c) + RowMoves(i - 1, boardSize, c)
    }

    /** The move list for colour `c`, in row-major cell order. */
    ghost function Moves(c: Cell): seq<Option<Move>>
      requires WellSized()
      reads board
    {
      RowsMoves(boardSize, c)
    }

    /** Entry `x` is the search along `d` from the piece of colour `c` at (i, j). */
    ghost predicate SearchedFrom(x: Option<Move>, c: Cell, i: int, j: int, d: Direction)
      requires WellSized()
      reads board
    {
      0 <= i < boardSize && 0 <= j < boardSize && board[i, j] == c && x == SearchFrom(d, i, j, c)
    }

    /** Entry `x` is the search in some direction from some piece of colour `c`. */
    ghost predicate FromOwnedCell(x: Option<Move>, c: Cell)
      requires WellSized()
      reads board
    {
      exists i, j, d :: SearchedFrom(x, c, i, j, d)
    }

    /** The eight entries of a cell of colour `c`, with each search's first
        cell written out. */
    lemma CellMovesAt(i: int, j: int, c: Cell)
      requires WellSized() && 0 <= i < boardSize && 0 <= j < boardSize
      ensures board[i, j] == c ==> (CellMoves(i, j, c) ==
                [ Search(Up, i - 1, j, 0, [], c), Search(Down, i + 1, j, 0, [], c),
                  Search(Left, i, j - 1, 0, [], c), Search(Right, i, j + 1, 0, [], c),
                  Search(UpLeft, i - 1, j - 1, 0, [], c), Search(UpRight, i - 1, j + 1, 0, [], c),
                  Search(DownLeft, i + 1, j - 1, 0, [], c), Search(DownRight, i + 1, j + 1, 0, [], c) ])
      ensures board[i, j] != c ==> CellMoves(i, j, c) == []
    {
      CellMovesInOrder(i, j, c);
      if board[i, j] == c {
        FirstSteps(i, j, c);
      }
    }

    /** The entries of a cell of colour `c` are its eight searches in direction order. */
    lemma CellMovesInOrder(i: int, j: int, c: Cell)
      requires WellSized() && 0 <= i < boardSize && 0 <= j < boardSize
      ensures board[i, j] == c ==> (CellMoves(i, j, c) ==
                [ SearchFrom(Up, i, j, c), SearchFrom(Down, i, j, c),
                  SearchFrom(Left, i, j, c), SearchFrom(Right, i, j, c),
                  SearchFrom(UpLeft, i, j, c), SearchFrom(UpRight, i, j, c),
                  SearchFrom(DownLeft, i, j, c), SearchFrom(DownRight, i, j, c) ])
      ensures board[i, j] != c ==> CellMoves(i, j, c) == []
    {
      SearchesFromAt(i, j, c, |Directions|);
    }

    /** Each search from (i, j) starts on the neighbouring cell in its direction. */
    lemma FirstSteps(i: int, j: int, c: Cell)
      requires WellSized()
      ensures SearchFrom(Up, i, j, c) == Search(Up, i - 1, j, 0, [], c)
      ensures SearchFrom(Down, i, j, c) == Search(Down, i + 1, j, 0, [], c)
      ensures SearchFrom(Left, i, j, c) == Search(Left, i, j - 1, 0, [], c)
      ensures SearchFrom(Right, i, j, c) == Search(Right, i, j + 1, 0, [], c)
      ensures SearchFrom(UpLeft, i, j, c) == Search(UpLeft, i - 1, j - 1, 0, [], c)
      ensures SearchFrom(UpRight, i, j, c) == Search(UpRight, i - 1, j + 1, 0, [], c)
      ensures SearchFrom(DownLeft, i, j, c) == Search(DownLeft, i + 1, j - 1, 0, [], c)
      ensures SearchFrom(DownRight, i, j, c) == Search(DownRight, i + 1, j + 1, 0, [], c)
    {
      assert i + Up.DRow() == i - 1 && j + Up.DCol() == j;
      assert i + Down.DRow() == i + 1 && j + Down.DCol() == j;
      assert i + Left.DRow() == i && j + Left.DCol() == j - 1;
      assert i + Right.DRow() == i && j + Right.DCol() == j + 1;
      assert i + UpLeft.DRow() == i - 1 && j + UpLeft.DCol() == j - 1;
      assert i + UpRight.DRow() == i - 1 && j + UpRight.DCol() == j + 1;
      assert i + DownLeft.DRow() == i + 1 && j + DownLeft.DCol() == j - 1;
      assert i + DownRight.DRow() == i + 1 && j + DownRight.DCol() == j + 1;
    }

    /** One cell's step of the row-major scan: appending the cell's entries extends the prefix by one cell. */
    lemma RowMovesStep(i: int, j: int, c: Cell, before: seq<Option<Move>>, after: seq<Option<Move>>)
      requires WellSized() && 0 <= i < boardSize && 0 <= j < boardSize
      requires before == RowsMoves(i, c) + RowMoves(i, j, c)
      requires after == before + CellMoves(i, j, c)
      ensures after == RowsMoves(i, c) + RowMoves(i, j + 1, c)
    {
      AppendRegroup(RowsMoves(i, c), RowMoves(i, j, c), CellMoves(i, j, c), RowMoves(i, j + 1, c));
    }

    /** The eight appends of one owned cell, or none for any other cell, add
        exactly that cell's entries. */
    lemma AppendCell(i: int, j: int, c: Cell, before: seq<Option<Move>>, after: seq<Option<Move>>)
      requires WellSized() && 0 <= i < boardSize && 0 <= j < boardSize
      requires board[i, j] == c ==>
        after == before + [Search(Up, i - 1, j, 0, [], c)] + [Search(Down, i + 1, j, 0, [], c)]
                        + [Search(Left, i, j - 1, 0, [], c)] + [Search(Right, i, j + 1, 0, [], c)]
                        + [Search(UpLeft, i - 1, j - 1, 0, [], c)] + [Search(UpRight, i - 1, j + 1, 0, [], c)]
                        + [Search(DownLeft, i + 1, j - 1, 0, [], c)] + [Search(DownRight, i + 1, j + 1, 0, [], c)]
      requires board[i, j] != c ==> after == before
      ensures after == before + CellMoves(i, j, c)
    {
      CellMovesAt(i, j, c);
      if board[i, j] == c {
        ConcatEight(before, Search(Up, i - 1, j, 0, [], c), Search(Down, i + 1, j, 0, [], c),
                    Search(Left, i, j - 1, 0, [], c), Search(Right, i, j + 1, 0, [], c),
                    Search(UpLeft, i - 1, j - 1, 0, [], c), Search(UpRight, i - 1, j + 1, 0, [], c),
                    Search(DownLeft, i + 1, j - 1, 0, [], c), Search(DownRight, i + 1, j + 1, 0, [], c));
      }
    }

    /** One row's step of the row-major scan. */
    lemma RowsMovesStep(i: int, c: Cell, moves: seq<Option<Move>>)
      requires WellSized() && 0 <= i < boardSize
      requires moves == RowsMoves(i, c) + RowMoves(i, boardSize, c)
      ensures moves == RowsMoves(i + 1, c)
    {
    }

    method PossibleMoves(c: Cell) returns (moves: seq<Option<Move>>)
      requires WellSized()
      ensures moves == Moves(c)
    {
      moves := [];
      var i := 0;
      while i < boardSize
        invariant 0 <= i <= boardSize
        invariant moves == RowsMoves(i, c)
      {
        var j := 0;
        while j < boardSize
          invariant 0 <= j <= boardSize
          invariant moves == RowsMoves(i, c) + RowMoves(i, j, c)
        {
          ghost var before := moves;
          if board[i, j] == c {
            moves := moves + [Search(Up, i - 1, j, 0, [], c)];
            moves := moves + [Search(Down, i + 1, j, 0, [], c)];
            moves := moves + [Search(Left, i, j - 1, 0, [], c)];
            moves := moves + [Search(Right, i, j + 1, 0, [], c)];
            moves := moves + [Search(UpLeft, i - 1, j - 1, 0, [], c)];
            moves := moves + [Search(UpRight, i - 1, j + 1, 0, [], c)];
            moves := moves + [Search(DownLeft, i + 1, j - 1, 0, [], c)];
            moves := moves + [Search(DownRight, i + 1, j + 1, 0, [], c)];
          }
          AppendCell(i, j, c, before, moves);
          RowMovesStep(i, j, c, before, moves);
          j := j + 1;
        }
        RowsMovesStep(i, c, moves);
        i := i + 1;
      }
    }

    lemma {:induction false} RowMovesLength(i: int, j: int, c: Cell)
      requires WellSized() && 0 <= i < boardSize && 0 <= j <= boardSize
      ensures |RowMoves(i, j, c)| == 8 * RowScore(i, j, c)
      decreases j
    {
      if j > 0 {
        RowMovesLength(i, j - 1, c);
        SearchesFromAt(i, j - 1, c, |Directions|);
      }
    }

    lemma {:induction false} RowsMovesLength(i: int, c: Cell)
      requires WellSized() && 0 <= i <= boardSize
      ensures |RowsMoves(i, c)| == 8 * RowsScore(i, c)
      decreases i
    {
      if i > 0 {
        RowsMovesLength(i - 1, c);
        RowMovesLength(i - 1, boardSize, c);
      }
    }

    /** Eight entries per piece of colour `c`, None ones included. */
    lemma MovesLength(c: Cell)
      requires WellSized()
      ensures |Moves(c)| == 8 * Score(c)
    {
      RowsMovesLength(boardSize, c);
    }

    lemma CellMovesFromOwnedCell(i: int, j: int, c: Cell, x: Option<Move>)
      requires WellSized() && 0 <= i < boardSize && 0 <= j < boardSize
      ensures x in CellMoves(i, j, c) <==> exists d :: SearchedFrom(x, c, i, j, d)
    {
      SearchesFromAt(i, j, c, |Directions|);
      if x in CellMoves(i, j, c) {
        var k :| 0 <= k < 8 && CellMoves(i, j, c)[k] == x;
        assert SearchedFrom(x, c, i, j, Directions[k]);
      }
      if exists d :: SearchedFrom(x, c, i, j, d) {
        var d :| SearchedFrom(x, c, i, j, d);
        assert CellMoves(i, j, c)[DirectionIndex(d)] == x;
      }
    }

    /** The per-cell entry lists of cells (i, 0) .. (i, j - 1). */
    ghost function RowLists(i: int, j: int, c: Cell): seq<seq<Option<Move>>>
      requires WellSized() && 0 <= i < boardSize && 0 <= j <= boardSize
      reads board
    {
      if j == 0 then [] else RowLists(i, j - 1, c) + [CellMoves(i, j - 1, c)]
    }

    /** The per-row entry lists of rows 0 .. i - 1. */
    ghost function RowsLists(i: int, c: Cell): seq<seq<Option<Move>>>
      requires WellSized() && 0 <= i <= boardSize
      reads board
    {
      if i == 0 then [] else RowsLists(i - 1, c) + [RowMoves(i - 1, boardSize, c)]
    }

    lemma {:induction false} RowListsAt(i: int, j: int, c: Cell)
      requires WellSized() && 0 <= i < boardSize && 0 <= j <= boardSize
      ensures |RowLists(i, j, c)| == j
      ensures forall k :: 0 <= k < j ==> RowLists(i, j, c)[k] == CellMoves(i, k, c)
    {
      if j > 0 {
        RowListsAt(i, j - 1, c);
      }
    }

    lemma {:induction false} RowListsFlatten(i: int, j: int, c: Cell)
      requires WellSized() && 0 <= i < boardSize && 0 <= j <= boardSize
      ensures RowMoves(i, j, c) == Flatten(RowLists(i, j, c))
    {
      if j > 0 {
        RowListsFlatten(i, j - 1, c);
        FlattenStep(RowLists(i, j - 1, c), CellMoves(i, j - 1, c), RowMoves(i, j - 1, c), RowMoves(i, j, c), RowLists(i, j, c));
      }
    }

    lemma {:induction false} RowsListsAt(i: int, c: Cell)
      requires WellSized() && 0 <= i <= boardSize
      ensures |RowsLists(i, c)| == i
      ensures forall k :: 0 <= k < i ==> RowsLists(i, c)[k] == RowMoves(k, boardSize, c)
    {
      if i > 0 {
        RowsListsAt(i - 1, c);
      }
    }

    lemma {:induction false} RowsListsFlatten(i: int, c: Cell)
      requires WellSized() && 0 <= i <= boardSize
      ensures RowsMoves(i, c) == Flatten(RowsLists(i, c))
    {
      if i > 0 {
        RowsListsFlatten(i - 1, c);
        FlattenStep(RowsLists(i - 1, c), RowMoves(i - 1, boardSize, c), RowsMoves(i - 1, c), RowsMoves(i, c), RowsLists(i, c));
      }
    }

    /** The entries of cell (i, j) appear in the move list. */
    lemma MovesHasCell(i: int, j: int, c: Cell, x: Option<Move>)
      requires WellSized() && 0 <= i < boardSize && 0 <= j < boardSize
      requires x in CellMoves(i, j, c)
      ensures x in Moves(c)
    {
      RowListsAt(i, boardSize, c);
      RowListsFlatten(i, boardSize, c);
      FlattenHas(RowLists(i, boardSize, c), j, x);
      RowsListsAt(boardSize, c);
      RowsListsFlatten(boardSize, c);
      FlattenHas(RowsLists(boardSize, c), i, x);
    }

    /** The cell that an entry of the move list comes from. */
    lemma MovesCellOf(c: Cell, x: Option<Move>) returns (i: int, j: int)
      requires WellSized() && x in Moves(c)
      ensures 0 <= i < boardSize && 0 <= j < boardSize && x in CellMoves(i, j, c)
    {
      RowsListsAt(boardSize, c);
      RowsListsFlatten(boardSize, c);
      i := FlattenPick(RowsLists(boardSize, c), x);
      RowListsAt(i, boardSize, c);
      RowListsFlatten(i, boardSize, c);
      j := FlattenPick(RowLists(i, boardSize, c), x);
    }

    /** The move list holds exactly the searches in every direction from every
        piece of colour `c`. */
    lemma MovesAreSearchesFromOwnedCells(c: Cell)
      requires WellSized()
      ensures forall x :: x in Moves(c) <==> FromOwnedCell(x, c)
    {
      forall x
        ensures x in Moves(c) <==> FromOwnedCell(x, c)
      {
        if x in Moves(c) {
          var i, j := MovesCellOf(c, x);
          CellMovesFromOwnedCell(i, j, c, x);
        }
        if FromOwnedCell(x, c) {
          var i, j, d :| SearchedFrom(x, c, i, j, d);
          CellMovesFromOwnedCell(i, j, c, x);
          MovesHasCell(i, j, c, x);
        }
      }
    }

    /** Every non-None entry of the move list is a well-formed capture. */
    lemma MovesAreCandidates(c: Cell)
      requires WellSized()
      ensures forall k :: 0 <= k < |Moves(c)| && Moves(c)[k].Some? ==> IsCandidate(Moves(c)[k].value, c)
    {
      MovesAreSearchesFromOwnedCells(c);
      forall k | 0 <= k < |Moves(c)| && Moves(c)[k].Some?
        ensures IsCandidate(Moves(c)[k].value, c)
      {
        assert Moves(c)[k] in Moves(c);
        var i, j, d :| SearchedFrom(Moves(c)[k], c, i, j, d);
        SearchFromFindsCapture(d, i, j, c);
      }
    }

    /** True when every piece listed by a candidate of `moves` lies on the board. */
    ghost predicate PiecesOnBoard(moves: seq<Option<Move>>) {
      forall k, q :: 0 <= k < |moves| && moves[k].Some? && q in moves[k].value.pieces ==> !OutOfBounds(q.x, q.y)
    }

    /** Every piece a candidate would flip lies on the board. */
    lemma MovePiecesInBounds(c: Cell)
      requires WellSized()
      ensures PiecesOnBoard(Moves(c))
    {
      var moves := Moves(c);
      MovesAreCandidates(c);
      forall k, q | 0 <= k < |moves| && moves[k].Some? && q in moves[k].value.pieces
        ensures !OutOfBounds(q.x, q.y)
      {
        var t :| 0 <= t < |moves[k].value.pieces| && moves[k].value.pieces[t] == q;
        assert Opposes(moves[k].value.pieces[t], c);
      }
    }

    /** What playing `target` would flip: pieces opposing `c`, never the
        landing cell, which is Empty whenever some candidate lands on it. */
    lemma CapturesOppose(c: Cell, target: Pos)
      requires WellSized()
      ensures forall p :: p in Captures(Moves(c), target) ==> Opposes(p, c) && p != target
      ensures IsTarget(Moves(c), target) ==> IsEmptyCell(target)
    {
      var moves := Moves(c);
      MovesAreCandidates(c);
      forall p | p in Captures(moves, target)
        ensures Opposes(p, c) && p != target
      {
        CapturesAreCandidatePieces(moves, target, p);
        var k :| 0 <= k < |moves| && Lands(moves[k], target) && p in moves[k].value.pieces;
        var m := moves[k].value;
        var t :| 0 <= t < |m.pieces| && m.pieces[t] == p;
        assert Opposes(m.pieces[t], c);
      }
      if IsTarget(moves, target) {
        var k :| 0 <= k < |moves| && Lands(moves[k], target);
        assert IsCandidate(moves[k].value, c);
      }
    }

    // ---------------------------------------------------------------------
    // Scoring

    /** Cells of colour `c` among (i, 0) .. (i, j - 1). */
    ghost function RowScore(i: int, j: int, c: Cell): nat
      requires WellSized() && 0 <= i < boardSize && 0 <= j <= boardSize
      reads board
      decreases j
    {
      if j == 0 then 0 else RowScore(i, j - 1, c) + (if board[i, j - 1] == c then 1 else 0)
    }

    /** Cells of colour `c` in rows 0 .. i - 1. */
    ghost function RowsScore(i: int, c: Cell): nat
      requires WellSized() && 0 <= i <= boardSize
      reads board
      decreases i
    {
      if i == 0 then 0 else RowsScore(i - 1, c) + RowScore(i - 1, boardSize, c)
    }

    /** The score of colour `c`, counted in row-major order. */
    ghost function Score(c: Cell): nat
      requires WellSized()
      reads board
    {
      RowsScore(boardSize, c)
    }

    /** The positions holding `c`. */
    ghost function CellsOf(c: Cell): set<Pos>
      requires WellSized()
      reads board
    {
      set r, col | 0 <= r < boardSize && 0 <= col < boardSize && board[r, col] == c :: Pos(r, col)
    }

    method GetScore(c: Cell) returns (score: nat)
      requires WellSized()
      ensures score == Score(c)
      ensures score == |CellsOf(c)|
    {
      score := 0;
      var i := 0;
      while i < boardSize
        invariant 0 <= i <= boardSize
        invariant score == RowsScore(i, c)
      {
        var j := 0;
        while j < boardSize
          invariant 0 <= j <= boardSize
          invariant score == RowsScore(i, c) + RowScore(i, j, c)
        {
          if board[i, j] == c {
            score := score + 1;
          }
          j := j + 1;
        }
        i := i + 1;
      }
      ScoreCountsCells(c);
    }

    /** The positions holding `c` among (i, 0) .. (i, j - 1). */
    ghost function RowCells(i: int, j: int, c: Cell): set<Pos>
      requires WellSized() && 0 <= i < boardSize && 0 <= j <= boardSize
      reads board
    {
      set col | 0 <= col < j && board[i, col] == c :: Pos(i, col)
    }

    /** The positions holding `c` in rows 0 .. i - 1. */
    ghost function RowsCells(i: int, c: Cell): set<Pos>
      requires WellSized() && 0 <= i <= boardSize
      reads board
    {
      set r, col | 0 <= r < i && 0 <= col < boardSize && board[r, col] == c :: Pos(r, col)
    }

    lemma {:induction false} RowScoreCountsCells(i: int, j: int, c: Cell)
      requires WellSized() && 0 <= i < boardSize && 0 <= j <= boardSize
      ensures RowScore(i, j, c) == |RowCells(i, j, c)|
      decreases j
    {
      if j > 0 {
        RowScoreCountsCells(i, j - 1, c);
        var before := RowCells(i, j - 1, c);
        if board[i, j - 1] == c {
          assert RowCells(i, j, c) == before + {Pos(i, j - 1)};
          assert Pos(i, j - 1) !in before;
        } else {
          assert RowCells(i, j, c) == before;
        }
      }
    }

    lemma {:induction false} RowsScoreCountsCells(i: int, c: Cell)
      requires WellSized() && 0 <= i <= boardSize
      ensures RowsScore(i, c) == |RowsCells(i, c)|
      decreases i
    {
      if i > 0 {
        RowsScoreCountsCells(i - 1, c);
        RowScoreCountsCells(i - 1, boardSize, c);
        var above := RowsCells(i - 1, c);
        var row := RowCells(i - 1, boardSize, c);
        assert RowsCells(i, c) == above + row;
        assert above * row == {};
        assert |above + row| + |above * row| == |above| + |row|;
      }
    }

    /** The score of `c` is the number of cells holding `c`. */
    lemma ScoreCountsCells(c: Cell)
      requires WellSized()
      ensures Score(c) == |CellsOf(c)|
    {
      RowsScoreCountsCells(boardSize, c);
      assert RowsCells(boardSize, c) == CellsOf(c);
    }

    lemma {:induction false} RowScoresPartition(i: int, j: int)
      requires WellSized() && 0 <= i < boardSize && 0 <= j <= boardSize
      ensures RowScore(i, j, White) + RowScore(i, j, Black) + RowScore(i, j, Empty) == j
      decreases j
    {
      if j > 0 {
        RowScoresPartition(i, j - 1);
      }
    }

    lemma {:induction false} RowsScoresPartition(i: int)
      requires WellSized() && 0 <= i <= boardSize
      ensures RowsScore(i, White) + RowsScore(i, Black) + RowsScore(i, Empty) == i * boardSize
      decreases i
    {
      if i > 0 {
        RowsScoresPartition(i - 1);
        RowScoresPartition(i - 1, boardSize);
        assert i * boardSize == (i - 1) * boardSize + boardSize;
      }
    }

    /** White, Black and Empty counts together cover the whole board. */
    lemma ScoresPartitionBoard()
      requires WellSized()
      ensures Score(White) + Score(Black) + Score(Empty) == boardSize * boardSize
    {
      RowsScoresPartition(boardSize);
    }

    /** The opening has two White and two Black pieces and nothing else. */
    lemma OpeningScores()
      requires WellSized() && IsOpening()
      ensures Score(White) == 2 && Score(Black) == 2
      ensures Score(Empty) == boardSize * boardSize - 4
    {
      var m := boardSize / 2;
      assert CellsOf(White) == {Pos(m, m), Pos(m - 1, m - 1)};
      assert CellsOf(Black) == {Pos(m, m - 1), Pos(m - 1, m)};
      ScoreCountsCells(White);
      ScoreCountsCells(Black);
      ScoresPartitionBoard();
    }

    // ---------------------------------------------------------------------
    // Move application

    /** Membership in `CellsOf` is exactly holding that colour on the board. */
    lemma CellsOfMembers(c: Cell)
      requires WellSized()
      ensures forall p :: p in CellsOf(c) ==> !OutOfBounds(p.x, p.y) && board[p.x, p.y] == c
      ensures forall r, col :: 0 <= r < boardSize && 0 <= col < boardSize && board[r, col] == c ==> Pos(r, col) in CellsOf(c)
    {
    }

    /** When exactly the empty cells other than `pos` stay empty, one empty cell was filled. */
    lemma FilledOneEmptyCell(empties: set<Pos>, pos: Pos)
      requires WellSized()
      requires pos in empties
      requires forall p :: p in empties ==> !OutOfBounds(p.x, p.y)
      requires forall r, c :: 0 <= r < boardSize && 0 <= c < boardSize ==>
                 (board[r, c] == Empty <==> Pos(r, c) in empties && Pos(r, c) != pos)
      ensures Score(Empty) == |empties| - 1
    {
      CellsOfMembers(Empty);
      assert CellsOf(Empty) == empties - {pos};
      ScoreCountsCells(Empty);
    }

    /** The cells a placement touches, stated against the set of empty cells:
        the landing cell is empty and every captured cell is occupied. */
    lemma CapturesAvoidEmpties(c: Cell, target: Pos)
      requires WellSized()
      ensures forall p :: p in Captures(Moves(c), target) ==> p !in CellsOf(Empty) && p != target
      ensures IsTarget(Moves(c), target) ==> target in CellsOf(Empty)
    {
      CapturesOppose(c, target);
      CellsOfMembers(Empty);
    }

    method FlipPieces(pieces: seq<Pos>, color: Cell)
      requires WellSized()
      requires forall q :: q in pieces ==> !OutOfBounds(q.x, q.y)
      modifies board
      ensures forall r, c :: 0 <= r < boardSize && 0 <= c < boardSize ==>
                board[r, c] == if Pos(r, c) in pieces then color else old(board[r, c])
    {
      for k := 0 to |pieces|
        invariant forall r, c :: 0 <= r < boardSize && 0 <= c < boardSize ==>
                    board[r, c] == if Pos(r, c) in pieces[..k] then color else old(board[r, c])
      {
        var piece := pieces[k];
        board[piece.GetX(), piece.GetY()] := color;
        assert pieces[..k + 1] == pieces[..k] + [piece];
      }
      assert pieces[..|pieces|] == pieces;
    }

    /** The scan of `__placePiece__` over the move list: every candidate that
        lands on (row, col) puts the current player's piece there and flips
        its pieces. */
    method PlayLandingMoves(moves: seq<Option<Move>>, row: int, col: int) returns (playerTurn: bool)
      requires WellSized() && !OutOfBounds(row, col) && PiecesOnBoard(moves)
      modifies board
      ensures playerTurn <==> IsTarget(moves, Pos(row, col))
      ensures forall r, c :: 0 <= r < boardSize && 0 <= c < boardSize ==>
                board[r, c] == if (playerTurn && r == row && c == col) || Pos(r, c) in Captures(moves, Pos(row, col))
                               then curPlayer else old(board[r, c])
    {
      var pos := Pos(row, col);
      playerTurn := false;
      ghost var touched: set<Pos> := {};
      for i := 0 to |moves|
        invariant playerTurn <==> IsTarget(moves[..i], pos)
        invariant touched == (if playerTurn then {pos} else {}) + Captures(moves[..i], pos)
        invariant forall r, c :: 0 <= r < boardSize && 0 <= c < boardSize ==>
                    board[r, c] == if Pos(r, c) in touched then curPlayer else old(board[r, c])
      {
        TargetsOfPrefix(moves, i, pos);
        if moves[i].Some? && moves[i].value.pos.Equals(pos) {
          board[row, col] := curPlayer;
          FlipPieces(moves[i].value.pieces, curPlayer);
          playerTurn := true;
          touched := touched + {pos} + CapturedBy(moves[i], pos);
        }
      }
      assert moves[..|moves|] == moves;
    }

    method PlacePiece(row: int, col: int) returns (outcome: Outcome<Error>)
      requires Valid()
      modifies this, board
      ensures Valid()
      ensures outcome == if OutOfBounds(row, col) then Fail(OutOfRange) else Pass
      ensures OutOfBounds(row, col) || !IsTarget(old(Moves(curPlayer)), Pos(row, col)) ==>
                && (forall r, c :: 0 <= r < boardSize && 0 <= c < boardSize ==> board[r, c] == old(board[r, c]))
                && curPlayer == old(curPlayer)
      ensures !OutOfBounds(row, col) && IsTarget(old(Moves(curPlayer)), Pos(row, col)) ==>
                && board[row, col] == old(curPlayer)
                && (forall r, c :: 0 <= r < boardSize && 0 <= c < boardSize && Pos(r, c) != Pos(row, col) ==>
                      board[r, c] == if Pos(r, c) in Captures(old(Moves(curPlayer)), Pos(row, col))
                                     then old(curPlayer) else old(board[r, c]))
                && curPlayer == Toggle(old(curPlayer))
                && Score(White) + Score(Black) == old(Score(White) + Score(Black)) + 1
    {
      if OutOfBounds(row, col) {
        return Fail(OutOfRange);
      }
      ghost var empties := CellsOf(Empty);
      CellsOfMembers(Empty);
      ScoreCountsCells(Empty);
      ScoresPartitionBoard();
      var moves := PossibleMoves(curPlayer);
      var pos := Pos(row, col);
      MovePiecesInBounds(curPlayer);
      CapturesAvoidEmpties(curPlayer, pos);
      ghost var captured := Captures(moves, pos);
      var playerTurn := PlayLandingMoves(moves, row, col);
      if !playerTurn {
        NoTargetNoCaptures(moves, pos);
      }
      if playerTurn {
        forall r, c | 0 <= r < boardSize && 0 <= c < boardSize
          ensures board[r, c] == Empty <==> Pos(r, c) in empties && Pos(r, c) != pos
        {
          assert Pos(r, c) in empties <==> old(board[r, c]) == Empty;
          assert Pos(r, c) in captured ==> Pos(r, c) !in empties;
        }
        FilledOneEmptyCell(empties, pos);
        ScoresPartitionBoard();
        if curPlayer == Black {
          curPlayer := White;
        } else {
          curPlayer := Black;
        }
      }
      return Pass;
    }

    // ---------------------------------------------------------------------
    // End of game

    /** The end test as written: both move lists are empty, which happens
        only when neither colour has a piece on the board. */
    method IsGameEnd() returns (ended: bool)
      requires WellSized()
      ensures ended <==> Score(White) == 0 && Score(Black) == 0
      ensures ended <==> CellsOf(White) == {} && CellsOf(Black) == {}
    {
      var white := PossibleMoves(White);
      var black := PossibleMoves(Black);
      MovesLength(White);
      MovesLength(Black);
      ScoreCountsCells(White);
      ScoreCountsCells(Black);
      ended := |white| == 0 && |black| == 0;
    }

    /** The end test as intended: neither colour has a legal move. */
    method IsGameOver() returns (over: bool)
      requires WellSized()
      ensures over <==> !HasCandidate(Moves(White)) && !HasCandidate(Moves(Black))
      ensures over <==> forall p :: !IsTarget(Moves(White), p) && !IsTarget(Moves(Black), p)
    {
      var white := PossibleMoves(White);
      var black := PossibleMoves(Black);
      var whiteCan := AnyCandidate(white);
      var blackCan := AnyCandidate(black);
      over := !whiteCan && !blackCan;
      forall p
        ensures IsTarget(white, p) ==> whiteCan
        ensures IsTarget(black, p) ==> blackCan
      {
        if IsTarget(white, p) {
          var k :| 0 <= k < |white| && Lands(white[k], p);
          assert white[k].Some?;
        }
        if IsTarget(black, p) {
          var k :| 0 <= k < |black| && Lands(black[k], p);
          assert black[k].Some?;
        }
      }
      if whiteCan {
        var k :| 0 <= k < |white| && white[k].Some?;
        assert IsTarget(white, white[k].value.pos);
      } else if blackCan {
        var k :| 0 <= k < |black| && black[k].Some?;
        assert IsTarget(black, black[k].value.pos);
      }
    }

    /** True iff some entry of `moves` is a candidate. */
    static method AnyCandidate(moves: seq<Option<Move>>) returns (found: bool)
      ensures found <==> HasCandidate(moves)
    {
      found := false;
      var k := 0;
      while k < |moves| && !found
        invariant 0 <= k <= |moves|
        invariant found <==> exists t :: 0 <= t < k && moves[t].Some?
      {
        found := moves[k].Some?;
        k := k + 1;
      }
    }

    /** On a board without Empty cells neither colour has a legal move, yet the
        end test as written reports the game as still running. */
    lemma FullBoardIsNotEnded()
      requires WellSized() && Score(Empty) == 0
      ensures !HasCandidate(Moves(White)) && !HasCandidate(Moves(Black))
      ensures !(Score(White) == 0 && Score(Black) == 0)
    {
      forall p: Pos | IsEmptyCell(p)
        ensures p in CellsOf(Empty)
      {
      }
      ScoreCountsCells(Empty);
      ScoresPartitionBoard();
      MovesAreCandidates(White);
      MovesAreCandidates(Black);
    }

    /** From the opening, Black can play one row above its left-hand centre
        piece, capturing the White piece between them. */
    lemma OpeningBlackCapture()
      requires WellSized() && IsOpening()
      ensures var m := boardSize / 2;
              && SearchFrom(Up, m, m - 1, Black) == Some(Move(Pos(m - 2, m - 1), Up, 1, [Pos(m - 1, m - 1)]))
              && IsTarget(Moves(Black), Pos(m - 2, m - 1))
              && Pos(m - 1, m - 1) in Captures(Moves(Black), Pos(m - 2, m - 1))
    {
      var m := boardSize / 2;
      var x := SearchFrom(Up, m, m - 1, Black);
      assert board[m - 1, m - 1] == White;
      assert board[m - 2, m - 1] == Empty;
      assert [] + [Pos(m - 1, m - 1)] == [Pos(m - 1, m - 1)];
      assert Search(Up, m - 2, m - 1, 1, [Pos(m - 1, m - 1)], Black)
          == Some(Move(Pos(m - 2, m - 1), Up, 1, [Pos(m - 1, m - 1)]));
      assert x == Search(Up, m - 1, m - 1, 0, [], Black);
      assert x == Some(Move(Pos(m - 2, m - 1), Up, 1, [Pos(m - 1, m - 1)]));
      MovesAreSearchesFromOwnedCells(Black);
      assert board[m, m - 1] == Black;
      assert SearchedFrom(x, Black, m, m - 1, Up);
      var moves := Moves(Black);
      assert x in moves;
      var k :| 0 <= k < |moves| && moves[k] == x;
      assert Lands(moves[k], Pos(m - 2, m - 1));
      CapturesAreCandidatePieces(moves, Pos(m - 2, m - 1), Pos(m - 1, m - 1));
    }
  }
}
