/**
 The rules of the game as the game manager applies them, and the search for the computer's move,
 which tries moves on the grid itself and takes them back.
 */
module TicTacToe {
  import opened Wrappers

  const CELLS: nat := 9
  const EMPTY: int := 0

  datatype Pair = Pair(player: int, ai: int)

  /** The marks of the two sides: neither is empty, and they differ. */
  type Ids = p: Pair | p.player != EMPTY && p.ai != EMPTY && p.player != p.ai witness Pair(1, -1)

  datatype Outcome = Progress | Win | Draw

  datatype Side = Player | Ai

  datatype Command = GameStart | YouCanPlay | MoveRejected | NoWinner | YouWin | YouLose | GameEnd

  function Announcement(outcome: Outcome, side: Side): Command {
    if outcome.Draw? then NoWinner else if side == Player then YouWin else YouLose
  }

  predicate Line(g: seq<int>, a: nat, b: nat, c: nat, id: int)
    requires |g| == CELLS && a < CELLS && b < CELLS && c < CELLS
  {
    g[a] == id && g[b] == id && g[c] == id
  }

  predicate Straight(g: seq<int>, id: int)
    requires |g| == CELLS
  {
    || Line(g, 0, 1, 2, id) || Line(g, 3, 4, 5, id) || Line(g, 6, 7, 8, id)
    || Line(g, 0, 3, 6, id) || Line(g, 1, 4, 7, id) || Line(g, 2, 5, 8, id)
  }

  /** The lines the program looks at for the player, which are not quite those of the game. */
  predicate PlayerLine(ids: Ids, g: seq<int>)
    requires |g| == CELLS
  {
    Straight(g, ids.player) || Line(g, 0, 4, 5, ids.player) || Line(g, 2, 4, 6, ids.player)
  }

  /** And for the computer. */
  predicate AiLine(ids: Ids, g: seq<int>)
    requires |g| == CELLS
  {
    Straight(g, ids.ai) || Line(g, 0, 4, 5, ids.ai) || Line(g, 2, 5, 6, ids.ai)
  }

  predicate Taken(ids: Ids, x: int) {
    x == ids.ai || x == ids.player
  }

  predicate Full(ids: Ids, g: seq<int>) {
    forall i | 0 <= i < |g| :: Taken(ids, g[i])
  }

  function Judge(ids: Ids, g: seq<int>): Outcome
    requires |g| == CELLS
  {
    if PlayerLine(ids, g) || AiLine(ids, g) then Win else if Full(ids, g) then Draw else Progress
  }

  // ----- the lines of the game, by rows and columns of the board

  /** The cell in a row and a column. */
  function At(g: seq<int>, row: nat, column: nat): int
    requires |g| == CELLS && row < 3 && column < 3
  {
    g[3 * row + column]
  }

  predicate Row(g: seq<int>, row: nat, id: int)
    requires |g| == CELLS && row < 3
  {
    forall column | 0 <= column < 3 :: At(g, row, column) == id
  }

  predicate Column(g: seq<int>, column: nat, id: int)
    requires |g| == CELLS && column < 3
  {
    forall row | 0 <= row < 3 :: At(g, row, column) == id
  }

  /** Three in a row by the rules of the game. */
  predicate RealLine(g: seq<int>, id: int)
    requires |g| == CELLS
  {
    || (exists row | 0 <= row < 3 :: Row(g, row, id))
    || (exists column | 0 <= column < 3 :: Column(g, column, id))
    || (forall k | 0 <= k < 3 :: At(g, k, k) == id)
    || (forall row, column | 0 <= row < 3 && 0 <= column < 3 && row + column == 2 :: At(g, row, column) == id)
  }

  /** The rows and columns are six lines of cells. */
  lemma StraightIs(g: seq<int>, id: int)
    requires |g| == CELLS
    ensures Straight(g, id) <==>
      (exists row | 0 <= row < 3 :: Row(g, row, id)) || (exists column | 0 <= column < 3 :: Column(g, column, id))
  {
    assert Line(g, 0, 1, 2, id) <==> Row(g, 0, id) by { RowCells(g, 0, id); }
    assert Line(g, 3, 4, 5, id) <==> Row(g, 1, id) by { RowCells(g, 1, id); }
    assert Line(g, 6, 7, 8, id) <==> Row(g, 2, id) by { RowCells(g, 2, id); }
    assert Line(g, 0, 3, 6, id) <==> Column(g, 0, id) by { ColumnCells(g, 0, id); }
    assert Line(g, 1, 4, 7, id) <==> Column(g, 1, id) by { ColumnCells(g, 1, id); }
    assert Line(g, 2, 5, 8, id) <==> Column(g, 2, id) by { ColumnCells(g, 2, id); }
    hide Line, Row, Column;
  }

  lemma RowCells(g: seq<int>, row: nat, id: int)
    requires |g| == CELLS && row < 3
    ensures Row(g, row, id) <==> Line(g, 3 * row, 3 * row + 1, 3 * row + 2, id)
  {
    assert At(g, row, 0) == g[3 * row] && At(g, row, 1) == g[3 * row + 1] && At(g, row, 2) == g[3 * row + 2];
  }

  lemma ColumnCells(g: seq<int>, column: nat, id: int)
    requires |g| == CELLS && column < 3
    ensures Column(g, column, id) <==> Line(g, column, column + 3, column + 6, id)
  {
    assert At(g, 0, column) == g[column] && At(g, 1, column) == g[column + 3] && At(g, 2, column) == g[column + 6];
  }

  /** The real lines are eight lines of cells. */
  lemma RealLineIs(g: seq<int>, id: int)
    requires |g| == CELLS
    ensures RealLine(g, id) <==> Straight(g, id) || Line(g, 0, 4, 8, id) || Line(g, 2, 4, 6, id)
  {
    StraightIs(g, id);
    assert At(g, 0, 0) == g[0] && At(g, 1, 1) == g[4] && At(g, 2, 2) == g[8];
    assert At(g, 0, 2) == g[2] && At(g, 1, 1) == g[4] && At(g, 2, 0) == g[6];
    hide Straight, Row, Column;
  }

  /**
   MAIN: on which boards the program sees a win: a row or a column of one mark, or 0-4-5 of one mark, or
   2-4-6 of the player's, or 2-5-6 of the computer's.  Without one it sees a draw when no cell is free.
   */
  lemma JudgeCells(ids: Ids, g: seq<int>)
    requires |g| == CELLS
    ensures Judge(ids, g).Win? <==>
      || (exists row | 0 <= row < 3 :: Row(g, row, ids.player)) || (exists row | 0 <= row < 3 :: Row(g, row, ids.ai))
      || (exists column | 0 <= column < 3 :: Column(g, column, ids.player))
      || (exists column | 0 <= column < 3 :: Column(g, column, ids.ai))
      || (g[0] == g[4] == g[5] && (g[0] == ids.player || g[0] == ids.ai))
      || g[2] == g[4] == g[6] == ids.player
      || g[2] == g[5] == g[6] == ids.ai
    ensures Judge(ids, g).Draw? <==> !Judge(ids, g).Win? && forall i | 0 <= i < 9 :: g[i] == ids.player || g[i] == ids.ai
    ensures Judge(ids, g).Draw? ==> forall i | 0 <= i < 9 :: g[i] != 0
  {
    hide Straight, Row, Column;
    StraightIs(g, ids.player);
    StraightIs(g, ids.ai);
    if Judge(ids, g).Draw? {
      forall i | 0 <= i < 9
        ensures g[i] != 0
      {
        assert Taken(ids, g[i]);
      }
    }
    if forall i | 0 <= i < 9 :: g[i] == ids.player || g[i] == ids.ai {
      assert Full(ids, g);
    }
  }

  /** Three in a row that the program overlooks. */
  predicate Overlooked(ids: Ids, g: seq<int>)
    requires |g| == CELLS
  {
    Line(g, 0, 4, 8, ids.player) || Line(g, 0, 4, 8, ids.ai) || Line(g, 2, 4, 6, ids.ai)
  }

  /** What the program takes for three in a row although it is not. */
  predicate Invented(ids: Ids, g: seq<int>)
    requires |g| == CELLS
  {
    Line(g, 0, 4, 5, ids.player) || Line(g, 0, 4, 5, ids.ai) || Line(g, 2, 5, 6, ids.ai)
  }

  /** The program sees a win exactly where there is one, except on the boards this condition names. */
  lemma JudgeIsReal(ids: Ids, g: seq<int>)
    requires |g| == CELLS
    ensures (Judge(ids, g).Win? <==> RealLine(g, ids.player) || RealLine(g, ids.ai))
        <==> Known(ids, g) || (Overlooked(ids, g) <==> Invented(ids, g))
    ensures Judge(ids, g) == RealJudge(ids, g) <==> Known(ids, g) || (Overlooked(ids, g) <==> Invented(ids, g))
  {
    hide RealLine, Straight;
    RealLineIs(g, ids.player);
    RealLineIs(g, ids.ai);
  }

  /** A line that the program and the game agree on. */
  predicate Known(ids: Ids, g: seq<int>)
    requires |g| == CELLS
  {
    Straight(g, ids.player) || Straight(g, ids.ai) || Line(g, 2, 4, 6, ids.player)
  }

  /** The judgement by the rules of the game. */
  function RealJudge(ids: Ids, g: seq<int>): Outcome
    requires |g| == CELLS
  {
    if RealLine(g, ids.player) || RealLine(g, ids.ai) then Win else if Full(ids, g) then Draw else Progress
  }

  function Mark(ids: Ids, k: nat): int {
    if k % 2 == 0 then ids.player else ids.ai
  }

  function Blank(): (g: seq<int>)
    ensures |g| == CELLS && forall i | 0 <= i < CELLS :: g[i] == EMPTY
  {
    seq(CELLS, _ => EMPTY)
  }

  /** The board after the moves of a log, the player's and the computer's in turn. */
  function Board(ids: Ids, log: seq<nat>): (g: seq<int>)
    requires forall k | 0 <= k < |log| :: log[k] < CELLS
    ensures |g| == CELLS
  {
    if log == [] then Blank() else Board(ids, log[..|log| - 1])[log[|log| - 1] := Mark(ids, |log| - 1)]
  }

  /** Two games the program misjudges: the player's third move completes 0-4-8, and in the other 0-4-5. */
  lemma Misjudged(ids: Ids)
    ensures var g := Board(ids, [0, 1, 4, 2, 8]); Judge(ids, g).Progress? && RealLine(g, ids.player)
    ensures var g := Board(ids, [0, 1, 4, 2, 5]); Judge(ids, g).Win? && !RealLine(g, ids.player) && !RealLine(g, ids.ai)
  {
    hide RealLine;
    BoardOf(ids, 8);
    BoardOf(ids, 5);
    RealLineIs(Board(ids, [0, 1, 4, 2, 8]), ids.player);
    RealLineIs(Board(ids, [0, 1, 4, 2, 5]), ids.player);
    RealLineIs(Board(ids, [0, 1, 4, 2, 5]), ids.ai);
  }

  lemma BoardOf(ids: Ids, last: nat)
    requires 4 < last < CELLS
    ensures var g := Board(ids, [0, 1, 4, 2, last]);
      g == Blank()[0 := ids.player][1 := ids.ai][4 := ids.player][2 := ids.ai][last := ids.player]
  {
    assert [0, 1, 4, 2, last][..4] == [0, 1, 4, 2];
    assert [0, 1, 4, 2][..3] == [0, 1, 4];
    assert [0, 1, 4][..2] == [0, 1];
    assert [0, 1][..1] == [0];
    assert [0][..0] == [];
    assert Board(ids, [0]) == Blank()[0 := ids.player];
    assert Board(ids, [0, 1]) == Board(ids, [0])[1 := ids.ai];
    assert Board(ids, [0, 1, 4]) == Board(ids, [0, 1])[4 := ids.player];
    assert Board(ids, [0, 1, 4, 2]) == Board(ids, [0, 1, 4])[2 := ids.ai];
  }

  /** The lowest empty cell from i on, or CELLS. */
  function LowestEmpty(g: seq<int>, i: nat): (r: nat)
    requires i <= |g|
    ensures i <= r <= |g| && (forall j | i <= j < r :: g[j] != EMPTY) && (r < |g| ==> g[r] == EMPTY)
    decreases |g| - i
  {
    if i == |g| || g[i] == EMPTY then i else LowestEmpty(g, i + 1)
  }

  /** The computer's move as the program numbers it: from 1, and 0 when there is none. */
  function ComputersMove(g: seq<int>): int
    requires |g| == CELLS
  {
    if LowestEmpty(g, 0) < CELLS then LowestEmpty(g, 0) + 1 else 0
  }

  predicate Acceptable(g: seq<int>, move: int)
    requires |g| == CELLS
  {
    0 <= move < CELLS && g[move] == EMPTY
  }

  /** The first acceptable move from position i on, or the length of the list. */
  function FirstAcceptable(g: seq<int>, moves: seq<int>, i: nat): (r: nat)
    requires |g| == CELLS && i <= |moves|
    ensures i <= r <= |moves| && (forall j | i <= j < r :: !Acceptable(g, moves[j])) && (r < |moves| ==> Acceptable(g, moves[r]))
    decreases |moves| - i
  {
    if i == |moves| || Acceptable(g, moves[i]) then i else FirstAcceptable(g, moves, i + 1)
  }

  function Rejections(n: nat): (r: seq<Command>)
    ensures |r| == n && forall i | 0 <= i < n :: r[i] == MoveRejected
  {
    seq(n, _ => MoveRejected)
  }

  /** The manager's game, with what it has sent and the moves it has not read yet. */
  class Game {
    const ids: Ids
    const grid: array<int>
    var over: bool
    var sent: seq<Command>
    var moves: seq<int>

    ghost predicate Valid()
      reads this
    {
      grid.Length == CELLS
    }

    constructor (ids: Ids)
      ensures Valid() && this.ids == ids && !over && grid[..] == Blank() && fresh(grid) && sent == [] && moves == []
    {
      this.ids := ids;
      grid := new int[CELLS](_ => EMPTY);
      over := false;
      sent, moves := [], [];
    }

    /**
     The search never looks at who has won: whatever the grid, the side and the depth, it leaves
     the grid as it was and scores it 0.
     */
    method MinMax(player: int, depth: nat) returns (r: int)
      requires Valid() && player != EMPTY
      modifies grid
      ensures grid[..] == old(grid[..]) && r == 0
      decreases depth
    {
      if depth == 0 {
        return 0;
      }
      var move, score := -1, -2;
      for i := 0 to CELLS
        invariant grid[..] == old(grid[..])
        invariant if move == -1 then score == -2 else score == 0
      {
        if grid[i] == EMPTY {
          grid[i] := player;
          var next := MinMax(-player, depth - 1);
          next := -next;
          if next > score {
            score, move := next, i;
          }
          grid[i] := EMPTY;
          assert grid[..] == old(grid[..]);
          if score > 0 {
            return score;
          }
        }
      }
      if move == -1 {
        return 0;
      }
      return score;
    }

    /** So the computer takes the lowest empty cell. */
    method ComputersTurn(depth: nat) returns (r: int)
      requires Valid()
      modifies grid
      ensures grid[..] == old(grid[..]) && r == ComputersMove(grid[..])
    {
      var move, score := -1, -2;
      for i := 0 to CELLS
        invariant grid[..] == old(grid[..])
        invariant if LowestEmpty(grid[..], 0) < i then move == LowestEmpty(grid[..], 0) && score == 0 else move == -1 && score == -2
      {
        if grid[i] == EMPTY {
          grid[i] := ids.ai;
          var temp := MinMax(ids.ai, depth);
          temp := -temp;
          if temp > score {
            score, move := temp, i;
          }
          grid[i] := EMPTY;
          assert grid[..] == old(grid[..]);
        }
      }
      return move + 1;
    }

    method HasWon(a: nat, b: nat, c: nat, d: nat, e: nat, f: nat) returns (r: bool)
      requires Valid() && a < CELLS && b < CELLS && c < CELLS && d < CELLS && e < CELLS && f < CELLS
      ensures r == (Line(grid[..], a, b, c, ids.player) || Line(grid[..], d, e, f, ids.ai))
    {
      r := || (grid[a] == ids.player && grid[b] == ids.player && grid[c] == ids.player)
           || (grid[d] == ids.ai && grid[e] == ids.ai && grid[f] == ids.ai);
    }

    method CheckWin() returns (r: Outcome)
      requires Valid()
      ensures r == Judge(ids, grid[..])
      ensures r.Win? <==>
        || (exists id | id in {ids.player, ids.ai} :: Straight(grid[..], id))
        || (grid[0] == grid[4] == grid[5] && (grid[0] == ids.player || grid[0] == ids.ai))
        || grid[2] == grid[4] == grid[6] == ids.player || grid[2] == grid[5] == grid[6] == ids.ai
      ensures r.Draw? ==> forall i | 0 <= i < 9 :: grid[i] != 0
    {
      var won := HasWon(0, 1, 2, 0, 1, 2);
      if won { return Win; }
      won := HasWon(3, 4, 5, 3, 4, 5);
      if won { return Win; }
      won := HasWon(6, 7, 8, 6, 7, 8);
      if won { return Win; }
      won := HasWon(0, 3, 6, 0, 3, 6);
      if won { return Win; }
      won := HasWon(1, 4, 7, 1, 4, 7);
      if won { return Win; }
      won := HasWon(2, 5, 8, 2, 5, 8);
      if won { return Win; }
      won := HasWon(0, 4, 5, 0, 4, 5);
      if won { return Win; }
      won := HasWon(2, 4, 6, 2, 5, 6);
      if won { return Win; }
      var left := CELLS;
      for i := 0 to CELLS
        invariant left >= CELLS - i
        invariant left == CELLS - i <==> forall j | 0 <= j < i :: Taken(ids, grid[j])
      {
        var cell := grid[i];
        if cell == ids.ai || cell == ids.player {
          left := left - 1;
        }
      }
      return if left == 0 then Draw else Progress;
    }

    /** Asks once, and again after every move that names no empty cell; None is to be still waiting. */
    method GetPlayerMove() returns (move: Option<nat>)
      requires Valid()
      modifies this`sent, this`moves
      ensures var k := FirstAcceptable(grid[..], old(moves), 0);
        if k < |old(moves)| then
          move == Some(old(moves)[k]) && moves == old(moves)[k + 1..] && sent == old(sent) + [YouCanPlay] + Rejections(k)
        else
          move == None && moves == [] && sent == old(sent) + [YouCanPlay] + Rejections(|old(moves)|)
    {
      sent := sent + [YouCanPlay];
      ghost var k := 0;
      while moves != []
        invariant k <= |old(moves)| && moves == old(moves)[k..]
        invariant FirstAcceptable(grid[..], old(moves), 0) == FirstAcceptable(grid[..], old(moves), k)
        invariant sent == old(sent) + [YouCanPlay] + Rejections(k)
        decreases |moves|
      {
        var m := moves[0];
        moves := moves[1..];
        if m < 0 || m > CELLS - 1 || grid[m] != 0 {
          sent := sent + [MoveRejected];
          assert Rejections(k + 1) == Rejections(k) + [MoveRejected];
        } else {
          return Some(m);
        }
        k := k + 1;
      }
      return None;
    }

    /** The player's turn: the move accepted is written, and no other cell changes. */
    method PlayMove() returns (move: Option<nat>)
      requires Valid()
      modifies this`sent, this`moves, grid
      ensures var g, k := old(grid[..]), FirstAcceptable(old(grid[..]), old(moves), 0);
        if k < |old(moves)| then
          && move == Some(old(moves)[k]) && Acceptable(g, old(moves)[k])
          && grid[..] == g[old(moves)[k] := ids.player] && moves == old(moves)[k + 1..]
        else
          move == None && grid[..] == g && moves == []
    {
      move := GetPlayerMove();
      if move.Some? {
        grid[move.value] := ids.player;
      }
    }

    /** The side that just moved is the one told to have won or lost. */
    method CheckGameState(current: Side)
      requires Valid()
      modifies this`sent, this`over
      ensures var outcome := Judge(ids, grid[..]);
        && over == (old(over) || !outcome.Progress?)
        && sent == old(sent) + if outcome.Progress? then [] else [Announcement(outcome, current)]
    {
      var state := CheckWin();
      match state
      case Progress =>
      case Win =>
        sent := sent + [if current == Player then YouWin else YouLose];
        over := true;
      case Draw =>
        sent := sent + [NoWinner];
        over := true;
    }

    /** On a full grid there is no move to write. */
    method PlayComputersTurn(depth: nat)
      requires Valid() && LowestEmpty(grid[..], 0) < CELLS
      modifies grid
      ensures grid[..] == old(grid[..])[LowestEmpty(old(grid[..]), 0) := ids.ai]
    {
      var move := ComputersTurn(depth);
      grid[move - 1] := ids.ai;
    }
  }
}
