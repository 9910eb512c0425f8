/**
 The game manager and the player as two processes that talk over two FIFO pipes, one step of either
 at a time.
 */
module Protocol {
  import opened Wrappers
  import opened TicTacToe

  /** Where the manager is: before its loop, at the top of it, in get_player_move, before the judgement, at the end. */
  datatype Manager = Starting | Turn(side: Side) | Waiting | Rejecting | Moved(side: Side) | Done

  /** Where the player is: waiting for a command, about to send a move, or out of its loop. */
  datatype Peer = Reading | Choosing | Over(unexpected: bool)

  /** What has passed: commands sent by the manager and got by the player, moves chosen, and those received turn by turn. */
  datatype History = History(sent: seq<Command>, got: seq<Command>, chosen: seq<int>, replies: seq<seq<int>>)

  /** `down` carries commands to the player, `up` moves to the manager; log, result, rejected and history only record. */
  datatype State = State(manager: Manager, grid: seq<int>, over: bool, peer: Peer, down: seq<Command>, up: seq<int>,
                         log: seq<nat>, result: Option<Command>, rejected: nat, history: History)

  function Other(side: Side): Side {
    if side == Player then Ai else Player
  }

  function Send(s: State, c: Command): State {
    s.(down := s.down + [c], history := s.history.(sent := s.history.sent + [c]))
  }

  /** A player's turn begins, for which no move has been received yet. */
  function NewTurn(s: State): State {
    s.(history := s.history.(replies := s.history.replies + [[]]))
  }

  /** The move at the head of the pipe is received. */
  function Receive(s: State): State
    requires s.up != []
  {
    var r := s.history.replies;
    s.(up := s.up[1..],
       history := s.history.(replies := if r == [] then [] else r[..|r| - 1] + [r[|r| - 1] + [s.up[0]]]))
  }

  function Write(ids: Ids, s: State, side: Side, cell: nat): State
    requires cell < |s.grid|
  {
    s.(manager := Moved(side), grid := s.grid[cell := if side == Player then ids.player else ids.ai], log := s.log + [cell])
  }

  ghost predicate ManagerStep(ids: Ids, s: State, s': State)
    requires |s.grid| == CELLS
  {
    match s.manager
    case Starting => s' == Send(s, GameStart).(manager := Turn(Player))
    case Turn(side) =>
      if s.over then s' == Send(s, GameEnd).(manager := Done)
      else if side == Player then s' == NewTurn(Send(s, YouCanPlay)).(manager := Waiting)
      else 0 < ComputersMove(s.grid) && s' == Write(ids, s, Ai, ComputersMove(s.grid) - 1)
    case Waiting =>
      s.up != [] &&
      var s1 := Receive(s);
      if Acceptable(s.grid, s.up[0]) then s' == Write(ids, s1, Player, s.up[0])
      else s' == s1.(manager := Rejecting, rejected := s.rejected + 1)
    case Rejecting => s' == Send(s, MoveRejected).(manager := Waiting)
    case Moved(side) =>
      var outcome := Judge(ids, s.grid);
      if outcome.Progress? then s' == s.(manager := Turn(Other(side)))
      else
        var c := Announcement(outcome, side);
        s' == Send(s, c).(manager := Turn(Other(side)), over := true, result := Some(c))
    case Done => false
  }

  ghost predicate PlayerStep(s: State, s': State) {
    match s.peer
    case Reading =>
      s.down != [] &&
      s' == s.(down := s.down[1..],
               history := s.history.(got := s.history.got + [s.down[0]]),
               peer := match s.down[0]
                       case GameStart => Reading
                       case YouCanPlay => Choosing
                       case MoveRejected => Choosing
                       case GameEnd => Over(true)
                       case _ => Over(false))
    case Choosing =>
      |s'.up| == |s.up| + 1 &&
      var move := s'.up[|s.up|];
      && 0 <= move < CELLS
      && s' == s.(peer := Reading, up := s.up + [move], history := s.history.(chosen := s.history.chosen + [move]))
    case Over(_) => false
  }

  ghost predicate Next(ids: Ids, s: State, s': State) {
    |s.grid| == CELLS && (ManagerStep(ids, s, s') || PlayerStep(s, s'))
  }

  ghost predicate Init(s: State) {
    s == State(Starting, Blank(), false, Reading, [], [], [], None, 0, History([], [], [], []))
  }

  ghost predicate IsRun(ids: Ids, run: seq<State>) {
    run != [] && Init(run[0]) && forall k | 0 <= k < |run| - 1 :: Next(ids, run[k], run[k + 1])
  }

  // ----- the board

  function Count(ids: Ids, g: seq<int>, n: nat): (r: nat)
    requires n <= |g|
    ensures r <= n && (r == n <==> forall i | 0 <= i < n :: Taken(ids, g[i]))
  {
    if n == 0 then 0 else Count(ids, g, n - 1) + if Taken(ids, g[n - 1]) then 1 else 0
  }

  lemma {:induction false} CountWrite(ids: Ids, g: seq<int>, n: nat, cell: nat, x: int)
    requires n <= |g| && cell < |g| && !Taken(ids, g[cell]) && Taken(ids, x)
    ensures Count(ids, g[cell := x], n) == Count(ids, g, n) + if cell < n then 1 else 0
  {
    if n > 0 {
      CountWrite(ids, g, n - 1, cell, x);
    }
  }

  /** The grid is what the log says; each cell was taken at most once. */
  ghost predicate BoardOk(ids: Ids, s: State) {
    && |s.grid| == CELLS && |s.log| == Count(ids, s.grid, CELLS)
    && (forall k | 0 <= k < |s.log| :: s.log[k] < CELLS && s.grid[s.log[k]] != EMPTY)
    && s.grid == Board(ids, s.log)
    && (forall i, j | 0 <= i < j < |s.log| :: s.log[i] != s.log[j])
    && forall i | 0 <= i < CELLS :: s.grid[i] == EMPTY || Taken(ids, s.grid[i])
  }

  lemma {:induction false} CountBlank(ids: Ids, n: nat)
    requires n <= CELLS
    ensures Count(ids, Blank(), n) == 0
  {
    if n > 0 {
      CountBlank(ids, n - 1);
    }
  }

  /** A move to an empty cell by the side whose turn it is. */
  lemma BoardStep(ids: Ids, s: State, side: Side, cell: nat)
    requires BoardOk(ids, s) && cell < CELLS && s.grid[cell] == EMPTY && (side == Player <==> |s.log| % 2 == 0)
    ensures BoardOk(ids, Write(ids, s, side, cell)) && |s.log| < CELLS
  {
    var s' := Write(ids, s, side, cell);
    CountWrite(ids, s.grid, CELLS, cell, s'.grid[cell]);
    assert s'.log[..|s.log|] == s.log;
    hide Count, Judge;
  }

  /** A move completes lines of the side that makes it only. */
  lemma OwnLine(ids: Ids, g: seq<int>, side: Side, cell: nat)
    requires |g| == CELLS && cell < CELLS && !PlayerLine(ids, g) && !AiLine(ids, g)
    ensures side == Player ==> !AiLine(ids, g[cell := ids.player])
    ensures side == Ai ==> !PlayerLine(ids, g[cell := ids.ai])
  {
  }

  // ----- the invariant

  /** Player and manager take turns; no line stands while the game goes on, or only the last mover's. */
  ghost predicate TurnOk(ids: Ids, s: State)
    requires |s.grid| == CELLS
  {
    match s.manager
    case Starting => s.log == [] && !s.over && Judge(ids, s.grid).Progress?
    case Turn(side) => (side == Player <==> |s.log| % 2 == 0) && (!s.over ==> Judge(ids, s.grid).Progress?)
    case Waiting => |s.log| % 2 == 0 && !s.over && Judge(ids, s.grid).Progress?
    case Rejecting => |s.log| % 2 == 0 && !s.over && Judge(ids, s.grid).Progress?
    case Moved(side) =>
      s.log != [] && (side == Player <==> |s.log| % 2 == 1) && !s.over && if side == Player then !AiLine(ids, s.grid) else !PlayerLine(ids, s.grid)
    case Done => s.over
  }

  /** The result announced is the right one. */
  ghost predicate ResultOk(ids: Ids, s: State)
    requires |s.grid| == CELLS
  {
    match s.result
    case None => !s.over
    case Some(c) =>
      && s.over && c in {YouWin, YouLose, NoWinner}
      && (c == YouWin <==> PlayerLine(ids, s.grid)) && (c == YouLose <==> AiLine(ids, s.grid))
      && (c == NoWinner ==> Full(ids, s.grid))
  }

  predicate IsAsk(c: Command) {
    c == YouCanPlay || c == MoveRejected
  }

  /** What is under way in the pipes at each point of the manager. */
  ghost predicate PipesOk(s: State) {
    if s.manager == Starting then s.down == [] && s.up == [] && s.peer == Reading
    else if s.manager == Waiting then
      || (s.up == [] && s.peer == Reading && |s.down| == 1 && IsAsk(s.down[0]))
      || (s.up == [] && s.peer == Reading && s.down == [GameStart, YouCanPlay])
      || (s.up == [] && s.peer == Choosing && s.down == [])
      || (|s.up| == 1 && s.peer == Reading && s.down == [])
    else if s.manager == Turn(Player) && s.log == [] then
      s.up == [] && s.peer == Reading && (s.down == [] || s.down == [GameStart])
    else if !s.over then s.up == [] && s.peer == Reading && s.down == []
    else
      var rest := if s.manager == Done then [GameEnd] else [];
      && s.up == [] && s.result.Some?
      && ((s.peer == Reading && s.down == [s.result.value] + rest) || (s.peer == Over(false) && s.down == rest))
  }

  ghost predicate Inv(ids: Ids, s: State) {
    BoardOk(ids, s) && TurnOk(ids, s) && ResultOk(ids, s) && PipesOk(s) && (s.over ==> s.log != [])
  }

  lemma InitOk(ids: Ids, s: State)
    requires Init(s)
    ensures Inv(ids, s)
  {
    CountBlank(ids, CELLS);
    assert !Taken(ids, s.grid[0]);
  }

  lemma PlayerKeeps(ids: Ids, s: State, s': State)
    requires Inv(ids, s) && PlayerStep(s, s')
    ensures Inv(ids, s')
  {
    hide BoardOk, Judge, PlayerLine, AiLine, Full;
    assert |s.grid| == CELLS by {
      GridSize(ids, s);
    }
    assert BoardOk(ids, s') by {
      SameBoard(ids, s, s');
    }
  }

  lemma GridSize(ids: Ids, s: State)
    requires BoardOk(ids, s)
    ensures |s.grid| == CELLS
  {
  }

  lemma SameBoard(ids: Ids, s: State, s': State)
    requires BoardOk(ids, s) && s'.grid == s.grid && s'.log == s.log
    ensures BoardOk(ids, s')
  {
  }

  lemma MoveKeeps(ids: Ids, s: State, side: Side, cell: nat)
    requires BoardOk(ids, s) && !s.over && Judge(ids, s.grid).Progress? && ResultOk(ids, s)
    requires cell < CELLS && s.grid[cell] == EMPTY && (side == Player <==> |s.log| % 2 == 0)
    requires s.up == [] && s.down == [] && s.peer == Reading
    ensures Inv(ids, Write(ids, s, side, cell))
  {
    BoardStep(ids, s, side, cell);
    OwnLine(ids, s.grid, side, cell);
    hide BoardOk, PlayerLine, AiLine, Full;
  }

  lemma ManagerKeeps(ids: Ids, s: State, s': State)
    requires Inv(ids, s) && ManagerStep(ids, s, s')
    ensures Inv(ids, s')
  {
    GridSize(ids, s);
    if s.manager == Turn(Ai) && !s.over {
      MoveKeeps(ids, s, Ai, ComputersMove(s.grid) - 1);
    } else if s.manager == Waiting && Acceptable(s.grid, s.up[0]) {
      MoveKeeps(ids, Receive(s), Player, s.up[0]);
    } else if s.manager.Moved? {
      JudgementKeeps(ids, s, s');
    } else {
      OtherwiseKeeps(ids, s, s');
    }
  }

  lemma JudgementKeeps(ids: Ids, s: State, s': State)
    requires Inv(ids, s) && |s.grid| == CELLS && ManagerStep(ids, s, s') && s.manager.Moved?
    ensures Inv(ids, s')
  {
    SameBoard(ids, s, s');
    hide BoardOk, PlayerLine, AiLine, Full, ComputersMove, Acceptable;
  }

  lemma Received(s: State)
    requires s.up != []
    ensures Receive(s) == s.(up := s.up[1..], history := Receive(s).history)
  {
  }

  lemma OtherwiseKeeps(ids: Ids, s: State, s': State)
    requires Inv(ids, s) && |s.grid| == CELLS && ManagerStep(ids, s, s')
    requires !s.manager.Moved? && !(s.manager == Turn(Ai) && !s.over) && !(s.manager == Waiting && Acceptable(s.grid, s.up[0]))
    ensures Inv(ids, s')
  {
    hide BoardOk, PlayerLine, AiLine, Full, ComputersMove, Acceptable, Judge, Receive;
    if s.manager == Waiting {
      Received(s);
    }
    SameBoard(ids, s, s');
  }

  lemma {:induction false} RunOk(ids: Ids, run: seq<State>, k: nat)
    requires IsRun(ids, run) && k < |run|
    ensures Inv(ids, run[k])
  {
    if k == 0 {
      InitOk(ids, run[0]);
    } else {
      RunOk(ids, run, k - 1);
      if PlayerStep(run[k - 1], run[k]) {
        PlayerKeeps(ids, run[k - 1], run[k]);
      } else {
        ManagerKeeps(ids, run[k - 1], run[k]);
      }
    }
  }

  // ----- what holds of every run

  function Asks(down: seq<Command>): nat {
    if down == [] then 0 else Asks(down[1..]) + if IsAsk(down[0]) then 1 else 0
  }

  /**
   MAIN: in every run, over all interleavings: while the manager waits for a move exactly one
   request or answer is under way, otherwise none; and the player never takes GameEnd from its pipe.
   */
  lemma OneMoveOutstanding(ids: Ids, run: seq<State>, k: nat)
    requires IsRun(ids, run) && k < |run|
    ensures var s := run[k];
      && Asks(s.down) + (if s.peer == Choosing then 1 else 0) + |s.up| == (if s.manager == Waiting then 1 else 0)
      && s.peer != Over(true)
  {
    RunOk(ids, run, k);
    hide BoardOk, TurnOk, ResultOk;
    assert Asks([]) == 0;
    assert Asks([GameEnd]) == 0 && [GameStart, YouCanPlay][1..] == [YouCanPlay];
    var s := run[k];
    if s.over && s.result.Some? {
      NoAsks(ids, s);
    }
  }

  lemma NoAsks(ids: Ids, s: State)
    requires Inv(ids, s) && s.over && s.result.Some?
    ensures Asks(s.down) == 0
  {
    hide BoardOk;
    assert !IsAsk(s.result.value);
    assert Asks([GameEnd]) == 0 && Asks([s.result.value]) == 0;
    assert [s.result.value, GameEnd][1..] == [GameEnd];
    assert [s.result.value] + [GameEnd] == [s.result.value, GameEnd] && [s.result.value] + [] == [s.result.value];
  }

  /** MAIN: a run that cannot go on has ended on both sides, with the right result announced. */
  lemma NoDeadlock(ids: Ids, run: seq<State>)
    requires IsRun(ids, run)
    ensures var s := run[|run| - 1];
      (forall s' :: !Next(ids, s, s')) <==> s.manager == Done && s.peer == Over(false)
  {
    var s := run[|run| - 1];
    RunOk(ids, run, |run| - 1);
    GridSize(ids, s);
    if !(s.manager == Done && s.peer == Over(false)) {
      var s' := Step(ids, s);
      assert Next(ids, s, s');
    }
  }

  lemma Step(ids: Ids, s: State) returns (s': State)
    requires Inv(ids, s) && !(s.manager == Done && s.peer == Over(false))
    ensures Next(ids, s, s')
  {
    GridSize(ids, s);
    if s.manager == Waiting || s.manager == Done {
      s' := PeerStep(ids, s);
    } else {
      s' := BossStep(ids, s);
    }
  }

  lemma PeerStep(ids: Ids, s: State) returns (s': State)
    requires |s.grid| == CELLS && PipesOk(s) && (s.manager == Waiting || (s.manager == Done && s.over && s.peer != Over(false)))
    ensures Next(ids, s, s')
  {
    if s.peer == Choosing {
      s' := s.(peer := Reading, up := s.up + [0], history := s.history.(chosen := s.history.chosen + [0]));
    } else if s.down != [] {
      s' := s.(down := s.down[1..], history := s.history.(got := s.history.got + [s.down[0]]),
               peer := match s.down[0]
                       case GameStart => Reading
                       case YouCanPlay => Choosing
                       case MoveRejected => Choosing
                       case GameEnd => Over(true)
                       case _ => Over(false));
    } else if Acceptable(s.grid, s.up[0]) {
      s' := Write(ids, Receive(s), Player, s.up[0]);
    } else {
      s' := Receive(s).(manager := Rejecting, rejected := s.rejected + 1);
    }
  }

  lemma BossStep(ids: Ids, s: State) returns (s': State)
    requires BoardOk(ids, s) && TurnOk(ids, s) && s.manager != Waiting && s.manager != Done
    ensures Next(ids, s, s')
  {
    match s.manager
    case Starting => s' := Send(s, GameStart).(manager := Turn(Player));
    case Turn(side) =>
      if s.over {
        s' := Send(s, GameEnd).(manager := Done);
      } else if side == Player {
        s' := NewTurn(Send(s, YouCanPlay)).(manager := Waiting);
      } else {
        RoomLeft(ids, s);
        s' := Write(ids, s, Ai, ComputersMove(s.grid) - 1);
      }
    case Rejecting => s' := Send(s, MoveRejected).(manager := Waiting);
    case Moved(side) =>
      var outcome := Judge(ids, s.grid);
      if outcome.Progress? {
        s' := s.(manager := Turn(Other(side)));
      } else {
        var c := Announcement(outcome, side);
        s' := Send(s, c).(manager := Turn(Other(side)), over := true, result := Some(c));
      }
  }

  lemma RoomLeft(ids: Ids, s: State)
    requires BoardOk(ids, s) && Judge(ids, s.grid).Progress?
    ensures LowestEmpty(s.grid, 0) < CELLS && |s.log| < CELLS
  {
    var i :| 0 <= i < CELLS && !Taken(ids, s.grid[i]);
  }

  /**
   MAIN: at most nine moves are accepted, each to its own cell; the computer is never asked to move
   on a full grid; and the result announced names the side that moved last and owns a line, or
   nobody on a full grid without lines.
   */
  lemma FairGame(ids: Ids, run: seq<State>, k: nat)
    requires IsRun(ids, run) && k < |run|
    ensures var s := run[k];
      && |s.grid| == CELLS && |s.log| <= CELLS && (forall i, j | 0 <= i < j < |s.log| :: s.log[i] != s.log[j])
      && (forall i | 0 <= i < |s.log| :: s.log[i] < CELLS) && s.grid == Board(ids, s.log)
      && (s.manager == Turn(Ai) && !s.over ==> LowestEmpty(s.grid, 0) < CELLS)
      && (s.result == Some(YouWin) <==> s.over && PlayerLine(ids, s.grid))
      && (s.result == Some(YouLose) <==> s.over && AiLine(ids, s.grid))
      && (s.result == Some(NoWinner) <==> s.over && Judge(ids, s.grid).Draw?)
  {
    RunOk(ids, run, k);
    if s: State :| s == run[k] && s.manager == Turn(Ai) && !s.over {
      RoomLeft(ids, s);
    }
  }

  // ----- the game the program plays, and the real one

  lemma {:induction false} BoardEmpty(ids: Ids, log: seq<nat>, cell: nat)
    requires (forall k | 0 <= k < |log| :: log[k] < CELLS) && cell < CELLS && cell !in log
    ensures Board(ids, log)[cell] == EMPTY
    decreases |log|
  {
    if log != [] {
      BoardEmpty(ids, log[..|log| - 1], cell);
    }
  }

  /** Cells in range, each once. */
  ghost predicate IsLog(log: seq<nat>) {
    && (forall k | 0 <= k < |log| :: log[k] < CELLS)
    && forall i, j | 0 <= i < j < |log| :: log[i] != log[j]
  }

  lemma BoardNext(ids: Ids, log: seq<nat>, j: nat)
    requires IsLog(log) && j < |log|
    ensures Board(ids, log[..j])[log[j]] == EMPTY
    ensures Board(ids, log[..j + 1]) == Board(ids, log[..j])[log[j] := Mark(ids, j)]
  {
    BoardEmpty(ids, log[..j], log[j]);
    assert log[..j + 1][..j] == log[..j];
  }

  /** What is overlooked once is there for the rest of the game. */
  lemma {:induction false} OverlookedStays(ids: Ids, log: seq<nat>, i: nat, j: nat)
    requires IsLog(log) && i <= j <= |log| && Overlooked(ids, Board(ids, log[..i]))
    ensures Overlooked(ids, Board(ids, log[..j]))
    decreases j
  {
    if i < j {
      OverlookedStays(ids, log, i, j - 1);
      BoardNext(ids, log, j - 1);
    }
  }

  /** The program saw no line before the last move. */
  ghost predicate OpenBefore(ids: Ids, log: seq<nat>)
    requires IsLog(log)
  {
    forall j | 0 <= j < |log| :: Judge(ids, Board(ids, log[..j])).Progress?
  }

  lemma OpenLonger(ids: Ids, log: seq<nat>, cell: nat)
    requires IsLog(log + [cell]) && IsLog(log) && OpenBefore(ids, log) && Judge(ids, Board(ids, log)).Progress?
    ensures OpenBefore(ids, log + [cell])
  {
    hide Judge;
    forall j | 0 <= j < |log + [cell]|
      ensures Judge(ids, Board(ids, (log + [cell])[..j])).Progress?
    {
      assert (log + [cell])[..j] == log[..j];
      assert j == |log| ==> log[..j] == log;
    }
  }

  lemma InvLog(ids: Ids, s: State)
    requires Inv(ids, s)
    ensures |s.grid| == CELLS && IsLog(s.log) && s.grid == Board(ids, s.log)
  {
    hide Judge, TurnOk, ResultOk, PipesOk;
  }

  lemma OpenStep(ids: Ids, s: State, s': State)
    requires Inv(ids, s) && Inv(ids, s') && Next(ids, s, s') && IsLog(s.log) && OpenBefore(ids, s.log)
    ensures IsLog(s'.log) && OpenBefore(ids, s'.log)
  {
    InvLog(ids, s);
    InvLog(ids, s');
    hide BoardOk, OpenBefore, IsLog, Judge, Acceptable, ComputersMove, ResultOk, PipesOk;
    if |s'.log| > |s.log| {
      OpenLonger(ids, s.log, s'.log[|s.log|]);
    }
  }

  lemma {:induction false} RunOpen(ids: Ids, run: seq<State>, k: nat)
    requires IsRun(ids, run) && k < |run|
    ensures IsLog(run[k].log) && OpenBefore(ids, run[k].log)
  {
    hide Inv, Next;
    RunOk(ids, run, k);
    if k > 0 {
      RunOk(ids, run, k - 1);
      RunOpen(ids, run, k - 1);
      OpenStep(ids, run[k - 1], run[k]);
    }
  }

  /** By the rules of the game, it was open before the last move, and that move ended it as the program says. */
  ghost predicate RealGame(ids: Ids, log: seq<nat>)
    requires IsLog(log)
  {
    && (forall j | 0 <= j < |log| :: RealJudge(ids, Board(ids, log[..j])).Progress?)
    && RealJudge(ids, Board(ids, log)) == Judge(ids, Board(ids, log))
  }

  lemma RealGameIs(ids: Ids, log: seq<nat>)
    requires IsLog(log) && log != [] && OpenBefore(ids, log)
    ensures var g := Board(ids, log);
      RealGame(ids, log) <==>
        !Overlooked(ids, Board(ids, log[..|log| - 1])) && (Known(ids, g) || (Overlooked(ids, g) <==> Invented(ids, g)))
  {
    hide Board;
    JudgeIsReal(ids, Board(ids, log));
    forall j | 0 <= j < |log|
      ensures RealJudge(ids, Board(ids, log[..j])).Progress? <==> !Overlooked(ids, Board(ids, log[..j]))
      ensures Overlooked(ids, Board(ids, log[..j])) ==> Overlooked(ids, Board(ids, log[..|log| - 1]))
    {
      OpenJudge(ids, Board(ids, log[..j]));
      if Overlooked(ids, Board(ids, log[..j])) {
        OverlookedStays(ids, log, j, |log| - 1);
      }
    }
    hide Judge, RealJudge, Overlooked, Invented, Known;
  }

  lemma OpenJudge(ids: Ids, g: seq<int>)
    requires |g| == CELLS && Judge(ids, g).Progress?
    ensures RealJudge(ids, g).Progress? <==> !Overlooked(ids, g)
  {
    hide RealLine, Straight;
    RealLineIs(g, ids.player);
    RealLineIs(g, ids.ai);
  }

  lemma MoverWins(ids: Ids, g: seq<int>, cell: nat, side: Side)
    requires |g| == CELLS && cell < CELLS && Judge(ids, g).Progress? && RealJudge(ids, g).Progress?
    requires var g' := g[cell := if side == Player then ids.player else ids.ai]; RealJudge(ids, g') == Judge(ids, g')
    ensures var g' := g[cell := if side == Player then ids.player else ids.ai];
      (PlayerLine(ids, g') <==> RealLine(g', ids.player)) && (AiLine(ids, g') <==> RealLine(g', ids.ai))
  {
    hide RealLine;
    var g' := g[cell := if side == Player then ids.player else ids.ai];
    OwnLine(ids, g, side, cell);
    RealLineIs(g, ids.player);
    RealLineIs(g, ids.ai);
    RealLineIs(g', ids.player);
    RealLineIs(g', ids.ai);
  }

  /**
   MAIN: when a result has been announced, the program has played a real game to its end if and only
   if no line it overlooks stood before the last move, and the last move completed a line that both
   know, or one it overlooks together with one it invents, or neither.  The result then names the side
   that really won.
   */
  lemma RightResult(ids: Ids, run: seq<State>, k: nat)
    requires IsRun(ids, run) && k < |run| && run[k].over
    ensures var s, n := run[k], |run[k].log|;
      && IsLog(s.log) && 0 < n && s.grid == Board(ids, s.log)
      && (RealGame(ids, s.log) <==>
            !Overlooked(ids, Board(ids, s.log[..n - 1]))
            && (Known(ids, s.grid) || (Overlooked(ids, s.grid) <==> Invented(ids, s.grid))))
      && (RealGame(ids, s.log) ==>
            && (s.result == Some(YouWin) <==> RealLine(s.grid, ids.player))
            && (s.result == Some(YouLose) <==> RealLine(s.grid, ids.ai)))
  {
    hide Inv, Next, RealGame, OpenBefore, Overlooked, Known, Invented, Judge, RealJudge, PlayerLine, AiLine, RealLine, Board;
    var s := run[k];
    RunOk(ids, run, k);
    OverMoved(ids, s);
    RunOpen(ids, run, k);
    FairGame(ids, run, k);
    RealGameIs(ids, s.log);
    if RealGame(ids, s.log) {
      LastMove(ids, s.log);
    }
  }

  lemma OverMoved(ids: Ids, s: State)
    requires Inv(ids, s) && s.over
    ensures s.log != []
  {
  }

  lemma LastMove(ids: Ids, log: seq<nat>)
    requires IsLog(log) && log != [] && OpenBefore(ids, log) && RealGame(ids, log)
    ensures var g := Board(ids, log);
      (PlayerLine(ids, g) <==> RealLine(g, ids.player)) && (AiLine(ids, g) <==> RealLine(g, ids.ai))
  {
    hide Judge, RealJudge, PlayerLine, AiLine, RealLine, Board;
    var n := |log| - 1;
    BoardNext(ids, log, n);
    assert log[..n + 1] == log;
    MoverWins(ids, Board(ids, log[..n]), log[n], if n % 2 == 0 then Player else Ai);
  }

  // ----- what is said

  /** Every turn has received a move. */
  ghost predicate Finished(replies: seq<seq<int>>) {
    forall t | 0 <= t < |replies| :: replies[t] != []
  }

  /** What is said in finished turns: one request each, and a refusal for every move received but the last. */
  function Dialogue(replies: seq<seq<int>>): seq<Command>
    requires Finished(replies)
    decreases |replies|
  {
    if replies == [] then []
    else
      var n := |replies| - 1;
      Dialogue(replies[..n]) + [YouCanPlay] + Rejections(|replies[n]| - 1)
  }

  predicate InTurn(s: State) {
    s.manager == Waiting || s.manager == Rejecting
  }

  /** GAME_START first; then the turns, a refusal being due in Rejecting; then the result; then GAME_END. */
  ghost predicate Talk(s: State) {
    var h := s.history;
    if s.manager == Starting then h.sent == [] && h.replies == []
    else if InTurn(s) then
      h.replies != [] &&
      var before, last := h.replies[..|h.replies| - 1], h.replies[|h.replies| - 1];
      && Finished(before) && (s.manager == Rejecting ==> last != [])
      && h.sent == [GameStart] + Dialogue(before) + [YouCanPlay]
                   + Rejections(if s.manager == Rejecting then |last| - 1 else |last|)
    else
      && Finished(h.replies)
      && h.sent == [GameStart] + Dialogue(h.replies) + (if s.result.Some? then [s.result.value] else [])
                   + (if s.manager == Done then [GameEnd] else [])
  }

  /** A move that names no cell, or one that is taken after the moves of the log. */
  predicate Refusable(log: seq<nat>, move: int) {
    !(0 <= move < 9) || (exists i | 0 <= i < |log| :: log[i] == move)
  }

  ghost predicate AllRefusable(log: seq<nat>, moves: seq<int>) {
    forall i | 0 <= i < |moves| :: Refusable(log, moves[i])
  }

  /** The moves received in turn t of the player's: refusable ones, and then the one the log has. */
  ghost predicate TurnTaken(log: seq<nat>, moves: seq<int>, t: nat) {
    && moves != [] && 2 * t < |log| && moves[|moves| - 1] == log[2 * t]
    && AllRefusable(log[..2 * t], moves[..|moves| - 1])
  }

  /** How many of the player's turns are over. */
  function TurnsDone(s: State): int {
    if InTurn(s) then |s.history.replies| - 1 else |s.history.replies|
  }

  /** Every finished turn ends on the move it adds to the log; all other moves received were refusable at the time. */
  ghost predicate Answered(s: State) {
    var r := s.history.replies;
    && 0 <= TurnsDone(s) == (|s.log| + 1) / 2
    && (forall t | 0 <= t < TurnsDone(s) :: TurnTaken(s.log, r[t], t))
    && (InTurn(s) ==> AllRefusable(s.log, r[|r| - 1]))
  }

  function Flat(replies: seq<seq<int>>): seq<int> {
    if replies == [] then [] else Flat(replies[..|replies| - 1]) + replies[|replies| - 1]
  }

  /** Both pipes deliver everything, in order. */
  ghost predicate Delivered(s: State) {
    s.history.got + s.down == s.history.sent && Flat(s.history.replies) + s.up == s.history.chosen
  }

  lemma RejectionsMore(n: nat)
    ensures Rejections(n) + [MoveRejected] == Rejections(n + 1)
  {
  }

  lemma DialogueMore(replies: seq<seq<int>>, last: seq<int>)
    requires Finished(replies) && last != []
    ensures Finished(replies + [last])
    ensures Dialogue(replies + [last]) == Dialogue(replies) + [YouCanPlay] + Rejections(|last| - 1)
  {
    assert (replies + [last])[..|replies|] == replies;
  }

  lemma Append(a: seq<Command>, b: seq<Command>, c: Command)
    ensures (a + b) + [c] == a + (b + [c])
  {
  }

  lemma RefusalTalk(s: State, s': State)
    requires s.manager == Rejecting && Talk(s) && s' == Send(s, MoveRejected).(manager := Waiting)
    ensures Talk(s')
  {
    hide Dialogue;
    var h := s.history;
    var before, last := h.replies[..|h.replies| - 1], h.replies[|h.replies| - 1];
    RejectionsMore(|last| - 1);
    Append([GameStart] + Dialogue(before) + [YouCanPlay], Rejections(|last| - 1), MoveRejected);
  }

  lemma RequestTalk(s: State, s': State)
    requires s.manager == Turn(Player) && s.result == None && Talk(s) && s' == NewTurn(Send(s, YouCanPlay)).(manager := Waiting)
    ensures Talk(s')
  {
    hide Dialogue;
    var r := s.history.replies;
    assert (r + [[]])[..|r|] == r && Rejections(0) == [];
    assert s.history.sent == [GameStart] + Dialogue(r);
  }

  lemma ReceiveTalk(s: State)
    requires s.manager == Waiting && Talk(s) && s.up != []
    ensures Talk(Receive(s).(manager := Rejecting))
    ensures s.result == None ==> Talk(Receive(s).(manager := Moved(Player)))
  {
    hide Dialogue;
    var r := s.history.replies;
    var before, last := r[..|r| - 1], r[|r| - 1];
    var r' := Receive(s).history.replies;
    assert r'[..|r'| - 1] == before && r'[|r'| - 1] == last + [s.up[0]];
    DialogueMore(before, last + [s.up[0]]);
  }

  lemma ResultTalk(s: State, s': State, c: Command)
    requires s.manager.Moved? && s.result == None && Talk(s)
    requires exists side :: s' == Send(s, c).(manager := Turn(side), over := true, result := Some(c))
    ensures Talk(s')
  {
    hide Dialogue;
    assert s.history.sent == [GameStart] + Dialogue(s.history.replies);
  }

  /** Nothing is said or received, and no turn begins or ends. */
  lemma QuietTalk(s: State, s': State)
    requires Talk(s) && s'.history.sent == s.history.sent && s'.history.replies == s.history.replies
    requires s'.result == s.result && (s'.manager == s.manager
             || ((s.manager.Moved? || s.manager.Turn?) && (s'.manager.Moved? || s'.manager.Turn?)))
    ensures Talk(s')
  {
    hide Dialogue;
  }

  lemma StartTalk(s: State, s': State)
    requires s.manager == Starting && Talk(s) && s.result == None && s' == Send(s, GameStart).(manager := Turn(Player))
    ensures Talk(s')
  {
    assert Dialogue([]) == [];
  }

  lemma TalkStep(ids: Ids, s: State, s': State)
    requires Inv(ids, s) && Talk(s) && Next(ids, s, s')
    ensures Talk(s')
  {
    NoResultYet(ids, s);
    hide Inv, Talk, Judge, Acceptable, ComputersMove;
    if PlayerStep(s, s') {
      QuietTalk(s, s');
    } else {
      match s.manager
      case Starting => StartTalk(s, s');
      case Turn(side) =>
        if s.over {
          EndTalk(s, s');
        } else if side == Player {
          RequestTalk(s, s');
        } else {
          QuietTalk(s, s');
        }
      case Waiting =>
        ReceiveTalk(s);
        if Acceptable(s.grid, s.up[0]) {
          QuietTalk(Receive(s).(manager := Moved(Player)), s');
        } else {
          QuietTalk(Receive(s).(manager := Rejecting), s');
        }
      case Rejecting => RefusalTalk(s, s');
      case Moved(side) =>
        if Judge(ids, s.grid).Progress? {
          QuietTalk(s, s');
        } else {
          ResultTalk(s, s', Announcement(Judge(ids, s.grid), side));
        }
      case Done =>
    }
  }

  lemma NoResultYet(ids: Ids, s: State)
    requires Inv(ids, s)
    ensures |s.grid| == CELLS && (s.over <==> s.result.Some?) && (InTurn(s) || s.manager.Moved? || s.manager == Starting ==> !s.over)
  {
    hide BoardOk, Judge, PipesOk;
    GridSize(ids, s);
  }

  lemma EndTalk(s: State, s': State)
    requires s.manager.Turn? && Talk(s) && s' == Send(s, GameEnd).(manager := Done)
    ensures Talk(s')
  {
    hide Dialogue;
  }

  // ----- which moves are refused

  lemma {:induction false} BoardTaken(ids: Ids, log: seq<nat>, i: nat)
    requires IsLog(log) && i < |log|
    ensures Board(ids, log)[log[i]] != EMPTY
    decreases |log|
  {
    var n := |log| - 1;
    if i < n {
      BoardTaken(ids, log[..n], i);
    }
  }

  lemma AcceptableIs(ids: Ids, log: seq<nat>, move: int)
    requires IsLog(log)
    ensures Acceptable(Board(ids, log), move) <==> !Refusable(log, move)
  {
    if 0 <= move < 9 {
      if i :| 0 <= i < |log| && log[i] == move {
        BoardTaken(ids, log, i);
      } else {
        BoardEmpty(ids, log, move);
      }
    }
  }

  lemma AnsweredStep(ids: Ids, s: State, s': State)
    requires Inv(ids, s) && Talk(s) && Answered(s) && Next(ids, s, s')
    ensures Answered(s')
  {
    hide Inv, Talk, Answered, Judge, ComputersMove, Acceptable, Board, IsLog, Refusable;
    if PlayerStep(s, s') {
      SameAnswered(s, s');
    } else if s.manager == Waiting {
      WaitingAnswered(ids, s, s');
    } else {
      OtherAnswered(ids, s, s');
    }
  }

  lemma WaitingAnswered(ids: Ids, s: State, s': State)
    requires Inv(ids, s) && Talk(s) && Answered(s) && s.manager == Waiting && |s.grid| == CELLS && ManagerStep(ids, s, s')
    ensures Answered(s')
  {
    hide Inv, Talk, Answered, Judge, Acceptable, Board, IsLog, Refusable;
    InvLog(ids, s);
    TurnParity(ids, s);
    TurnBegun(s);
    AcceptableIs(ids, s.log, s.up[0]);
    AcceptableCell(s.grid, s.up[0]);
    ReceivedAnswer(s, s');
  }

  lemma AcceptableCell(g: seq<int>, move: int)
    requires |g| == CELLS
    ensures Acceptable(g, move) ==> 0 <= move < CELLS
  {
  }

  lemma TurnBegun(s: State)
    requires Talk(s) && InTurn(s)
    ensures s.history.replies != []
  {
    hide Dialogue;
  }

  lemma OtherAnswered(ids: Ids, s: State, s': State)
    requires Inv(ids, s) && Answered(s) && s.manager != Waiting && |s.grid| == CELLS && ManagerStep(ids, s, s')
    ensures Answered(s')
  {
    hide Inv, Answered, Judge, ComputersMove;
    TurnParity(ids, s);
    if s.manager == Turn(Ai) && !s.over {
      LongerLog(s, s', s'.log[|s.log|]);
    } else if s.manager == Turn(Player) && !s.over {
      NewAnswered(s, s');
    } else {
      SameAnswered(s, s');
    }
  }

  lemma SameAnswered(s: State, s': State)
    requires Answered(s) && s'.history.replies == s.history.replies && s'.log == s.log && (InTurn(s) <==> InTurn(s'))
    ensures Answered(s')
  {
    hide Refusable;
  }

  lemma NewAnswered(s: State, s': State)
    requires Answered(s) && !InTurn(s) && InTurn(s') && |s.log| % 2 == 0
    requires s'.history.replies == s.history.replies + [[]] && s'.log == s.log
    ensures Answered(s')
  {
    hide TurnTaken, Refusable;
    var r, r' := s.history.replies, s'.history.replies;
    assert r'[|r'| - 1] == [];
    forall t | 0 <= t < |r|
      ensures TurnTaken(s'.log, r'[t], t)
    {
      assert r'[t] == r[t];
    }
  }

  lemma TurnParity(ids: Ids, s: State)
    requires Inv(ids, s)
    ensures InTurn(s) || (s.manager == Turn(Player) && !s.over) || s.manager == Starting ==> |s.log| % 2 == 0
    ensures s.manager == Turn(Ai) && !s.over ==> |s.log| % 2 == 1
    ensures s.manager == Starting ==> s.log == []
  {
    hide BoardOk, Judge, PipesOk, ResultOk;
  }

  /** Turns that are over stay as they are when the log grows. */
  lemma TakenLonger(log: seq<nat>, cell: nat, moves: seq<int>, t: nat)
    requires TurnTaken(log, moves, t)
    ensures TurnTaken(log + [cell], moves, t)
  {
    assert (log + [cell])[..2 * t] == log[..2 * t];
  }

  lemma LongerLog(s: State, s': State, cell: nat)
    requires Answered(s) && !InTurn(s) && !InTurn(s') && |s.log| % 2 == 1
    requires s'.log == s.log + [cell] && s'.history.replies == s.history.replies
    ensures Answered(s')
  {
    hide TurnTaken, Refusable;
    forall t | 0 <= t < |s.history.replies|
      ensures TurnTaken(s'.log, s'.history.replies[t], t)
    {
      TakenLonger(s.log, cell, s.history.replies[t], t);
    }
  }

  lemma ReceivedAnswer(s: State, s': State)
    requires s.manager == Waiting && Answered(s) && s.up != [] && |s.log| % 2 == 0 && s.history.replies != []
    requires s'.history.replies == Receive(s).history.replies
    requires || (s'.manager == Rejecting && s'.log == s.log && Refusable(s.log, s.up[0]))
             || (s'.manager == Moved(Player) && s.up[0] >= 0 && s'.log == s.log + [s.up[0]])
    ensures Answered(s')
  {
    hide TurnTaken, Refusable;
    var r, r' := s.history.replies, s'.history.replies;
    var n := |r| - 1;
    assert r' == r[..n] + [r[n] + [s.up[0]]];
    forall t | 0 <= t < n
      ensures TurnTaken(s'.log, r'[t], t)
    {
      assert r'[t] == r[t];
      if s'.log != s.log {
        TakenLonger(s.log, s.up[0], r[t], t);
      }
    }
    if s'.manager == Moved(Player) {
      TurnEnds(s.log, r[n], s.up[0], n);
    }
  }

  lemma TurnEnds(log: seq<nat>, moves: seq<int>, cell: nat, t: nat)
    requires AllRefusable(log, moves) && |log| == 2 * t
    ensures TurnTaken(log + [cell], moves + [cell], t)
  {
    assert (log + [cell])[..2 * t] == log && (moves + [cell])[..|moves|] == moves;
  }

  // ----- the pipes

  lemma DeliveredStep(ids: Ids, s: State, s': State)
    requires Talk(s) && Delivered(s) && Next(ids, s, s')
    ensures Delivered(s')
  {
    hide Judge, Acceptable, ComputersMove, Dialogue, Flat;
    var h := s.history;
    if PlayerStep(s, s') {
      if s.peer == Reading {
        assert (h.got + [s.down[0]]) + s.down[1..] == h.got + s.down;
      } else {
        assert (Flat(h.replies) + s.up) + [s'.up[|s.up|]] == Flat(h.replies) + s'.up;
      }
    } else if s.manager == Waiting {
      FlatReceived(s);
    } else if s.manager == Turn(Player) && !s.over {
      FlatNew(h.replies);
      Append(h.got, s.down, YouCanPlay);
    } else if s'.history.sent != h.sent {
      Append(h.got, s.down, s'.history.sent[|h.sent|]);
    }
  }

  lemma FlatNew(replies: seq<seq<int>>)
    ensures Flat(replies + [[]]) == Flat(replies)
  {
    assert (replies + [[]])[..|replies|] == replies;
  }

  lemma FlatReceived(s: State)
    requires s.history.replies != [] && s.up != []
    ensures Flat(Receive(s).history.replies) + Receive(s).up == Flat(s.history.replies) + s.up
  {
    var r, r' := s.history.replies, Receive(s).history.replies;
    var n := |r| - 1;
    assert r'[..n] == r[..n] && r'[n] == r[n] + [s.up[0]];
    assert Flat(r') + s.up[1..] == (Flat(r[..n]) + r[n]) + ([s.up[0]] + s.up[1..]);
  }

  /**
   MAIN: what is said in every run.  The manager says GAME_START first; in each of the player's turns
   YOU_CAN_PLAY once, and MOVE_REJECTED for every move received that names no free cell, until one does;
   then the result and GAME_END.  The pipes deliver all commands to the player and all moves to the
   manager, in order.
   */
  lemma {:induction false} Conversation(ids: Ids, run: seq<State>, k: nat)
    requires IsRun(ids, run) && k < |run|
    ensures Talk(run[k]) && Answered(run[k]) && Delivered(run[k])
    ensures run[k].manager == Done ==>
      var h, r := run[k].history, run[k].result;
      r.Some? && Finished(h.replies) && h.sent == [GameStart] + Dialogue(h.replies) + [r.value] + [GameEnd]
  {
    hide Inv, Next, Talk, Answered, Delivered, Init;
    RunOk(ids, run, k);
    if k > 0 {
      RunOk(ids, run, k - 1);
      Conversation(ids, run, k - 1);
      TalkStep(ids, run[k - 1], run[k]);
      AnsweredStep(ids, run[k - 1], run[k]);
      DeliveredStep(ids, run[k - 1], run[k]);
    } else {
      NothingSaid(run[0]);
    }
    if run[k].manager == Done {
      AllSaid(ids, run[k]);
    }
  }

  lemma NothingSaid(s: State)
    requires Init(s)
    ensures Talk(s) && Answered(s) && Delivered(s)
  {
  }

  lemma AllSaid(ids: Ids, s: State)
    requires Inv(ids, s) && Talk(s) && s.manager == Done
    ensures var h, r := s.history, s.result;
      r.Some? && Finished(h.replies) && h.sent == [GameStart] + Dialogue(h.replies) + [r.value] + [GameEnd]
  {
    hide BoardOk, Judge, PipesOk;
    GridSize(ids, s);
  }

  // ----- two runs the program misjudges

  /** The manager is about to give `side` the move, and nothing is under way. */
  ghost predicate Ready(s: State, side: Side) {
    |s.grid| == CELLS && s.manager == Turn(side) && !s.over && s.peer == Reading && s.down == [] && s.up == []
  }

  /** The state after a move and its judgement. */
  function AfterMove(ids: Ids, s: State, side: Side, cell: nat): State
    requires |s.grid| == CELLS && cell < CELLS
  {
    var w := Write(ids, s, side, cell);
    var outcome := Judge(ids, w.grid);
    if outcome.Progress? then w.(manager := Turn(Other(side)))
    else Send(w, Announcement(outcome, side)).(manager := Turn(Other(side)), over := true, result := Some(Announcement(outcome, side)))
  }

  lemma Extend(ids: Ids, run: seq<State>, s: State)
    requires IsRun(ids, run) && Next(ids, run[|run| - 1], s)
    ensures IsRun(ids, run + [s])
  {
    hide Next, Init;
  }

  lemma Opening(ids: Ids) returns (run: seq<State>)
    ensures IsRun(ids, run) && Ready(run[|run| - 1], Player)
    ensures run[|run| - 1].log == [] && run[|run| - 1].grid == Blank()
  {
    var s0 := State(Starting, Blank(), false, Reading, [], [], [], None, 0, History([], [], [], []));
    var s1 := Send(s0, GameStart).(manager := Turn(Player));
    var s2 := s1.(down := [], history := s1.history.(got := [GameStart]));
    assert PlayerStep(s1, s2);
    Extend(ids, [s0], s1);
    Extend(ids, [s0] + [s1], s2);
    run := [s0] + [s1] + [s2];
  }

  /** A move of the player's: asked for, chosen, sent, accepted and judged. */
  lemma PlayerTurn(ids: Ids, run: seq<State>, cell: nat) returns (run': seq<State>)
    requires IsRun(ids, run) && Ready(run[|run| - 1], Player) && Acceptable(run[|run| - 1].grid, cell)
    ensures IsRun(ids, run') && run' != []
    ensures var s' := AfterMove(ids, run[|run| - 1], Player, cell); run'[|run'| - 1] == s'.(history := run'[|run'| - 1].history)
  {
    var s := run[|run| - 1];
    hide IsRun, Judge;
    var s1 := NewTurn(Send(s, YouCanPlay)).(manager := Waiting);
    var s2 := s1.(down := [], peer := Choosing, history := s1.history.(got := s1.history.got + [YouCanPlay]));
    var s3 := s2.(up := [cell], peer := Reading, history := s2.history.(chosen := s2.history.chosen + [cell]));
    var s4 := Write(ids, Receive(s3), Player, cell);
    var s5 := AfterMove(ids, Receive(s3), Player, cell);
    assert PlayerStep(s1, s2) && PlayerStep(s2, s3);
    assert Receive(s3) == s.(manager := Waiting, history := Receive(s3).history);
    Extend(ids, run, s1);
    Extend(ids, run + [s1], s2);
    Extend(ids, run + [s1] + [s2], s3);
    Extend(ids, run + [s1] + [s2] + [s3], s4);
    Extend(ids, run + [s1] + [s2] + [s3] + [s4], s5);
    run' := run + [s1] + [s2] + [s3] + [s4] + [s5];
  }

  /** A move of the computer's, to the lowest empty cell. */
  lemma AiTurn(ids: Ids, run: seq<State>) returns (run': seq<State>)
    requires IsRun(ids, run) && Ready(run[|run| - 1], Ai) && LowestEmpty(run[|run| - 1].grid, 0) < CELLS
    ensures IsRun(ids, run') && run' != []
    ensures run'[|run'| - 1] == AfterMove(ids, run[|run| - 1], Ai, LowestEmpty(run[|run| - 1].grid, 0))
  {
    var s := run[|run| - 1];
    hide IsRun, Judge;
    var cell := LowestEmpty(s.grid, 0);
    var s1, s2 := Write(ids, s, Ai, cell), AfterMove(ids, s, Ai, cell);
    Extend(ids, run, s1);
    Extend(ids, run + [s1], s2);
    run' := run + [s1] + [s2];
  }

  lemma FirstEmpty(g: seq<int>, cell: nat)
    requires |g| == CELLS && cell < CELLS && g[cell] == EMPTY && forall i | 0 <= i < cell :: g[i] != EMPTY
    ensures LowestEmpty(g, 0) == cell
  {
  }

  /** The boards of a game in which the player takes cells 0 and 4 and the computer answers. */
  lemma FourMoves(ids: Ids)
    ensures var g1 := Blank()[0 := ids.player]; var g2 := g1[1 := ids.ai]; var g3 := g2[4 := ids.player]; var g4 := g3[2 := ids.ai];
      && Judge(ids, g1).Progress? && Judge(ids, g2).Progress? && Judge(ids, g3).Progress? && Judge(ids, g4).Progress?
      && LowestEmpty(g1, 0) == 1 && LowestEmpty(g3, 0) == 2
  {
    var g1 := Blank()[0 := ids.player];
    FirstEmpty(g1, 1);
    FirstEmpty(g1[1 := ids.ai][4 := ids.player], 2);
    assert !Taken(ids, g1[8]);
  }

  /** The computer's replies in it are its own: the lowest empty cells. */
  lemma OpeningMoves(ids: Ids) returns (run: seq<State>)
    ensures IsRun(ids, run) && Ready(run[|run| - 1], Player) && run[|run| - 1].log == [0, 1, 4, 2]
    ensures run[|run| - 1].grid == Blank()[0 := ids.player][1 := ids.ai][4 := ids.player][2 := ids.ai]
  {
    hide IsRun, Judge, LowestEmpty;
    FourMoves(ids);
    run := Opening(ids);
    run := PlayerTurn(ids, run, 0);
    run := AiTurn(ids, run);
    run := PlayerTurn(ids, run, 4);
    run := AiTurn(ids, run);
  }

  /** MAIN: a run in which the player is told to have won without three in a row. */
  lemma WonWithoutLine(ids: Ids) returns (run: seq<State>)
    ensures IsRun(ids, run)
    ensures var s := run[|run| - 1];
      && |s.grid| == CELLS && s.over && s.log == [0, 1, 4, 2, 5] && s.result == Some(YouWin)
      && !RealLine(s.grid, ids.player) && !RealLine(s.grid, ids.ai) && IsLog(s.log) && !RealGame(ids, s.log)
  {
    run := OpeningMoves(ids);
    hide IsRun, Inv, Board, Judge, RealLine;
    run := PlayerTurn(ids, run, 5);
    BentLine(ids);
    RunOk(ids, run, |run| - 1);
    InvLog(ids, run[|run| - 1]);
  }

  lemma BentLine(ids: Ids)
    ensures var g := Blank()[0 := ids.player][1 := ids.ai][4 := ids.player][2 := ids.ai][5 := ids.player];
      Judge(ids, g).Win? && !RealLine(g, ids.player) && !RealLine(g, ids.ai)
  {
    hide RealLine;
    var g := Blank()[0 := ids.player][1 := ids.ai][4 := ids.player][2 := ids.ai][5 := ids.player];
    RealLineIs(g, ids.player);
    RealLineIs(g, ids.ai);
  }

  /** MAIN: a run in which the player has three in a row and the computer is to move. */
  lemma WinOverlooked(ids: Ids) returns (run: seq<State>)
    ensures IsRun(ids, run)
    ensures var s := run[|run| - 1];
      Ready(s, Ai) && s.log == [0, 1, 4, 2, 8] && s.result == None && RealLine(s.grid, ids.player)
  {
    run := OpeningMoves(ids);
    run := PlayerTurn(ids, run, 8);
    LineUnseen(ids);
    RunOk(ids, run, |run| - 1);
  }

  lemma LineUnseen(ids: Ids)
    ensures var g := Blank()[0 := ids.player][1 := ids.ai][4 := ids.player][2 := ids.ai][8 := ids.player];
      Judge(ids, g).Progress? && RealLine(g, ids.player)
  {
    hide RealLine;
    RealLineIs(Blank()[0 := ids.player][1 := ids.ai][4 := ids.player][2 := ids.ai][8 := ids.player], ids.player);
    assert !Taken(ids, Blank()[3]);
  }

  /** How many steps are still to come, if no move is rejected. */
  function Remaining(s: State): int {
    10 * (CELLS - |s.log|)
    + (match s.manager
       case Starting => 9
       case Turn(_) => 7
       case Waiting => if s.up != [] then 4 else if s.peer == Choosing then 5 else 5 + |s.down|
       case Rejecting => 7
       case Moved(_) => 10
       case Done => 0)
    + if s.manager == Waiting then 0 else |s.down|
  }

  lemma StepCounts(ids: Ids, s: State, s': State)
    requires Inv(ids, s) && Next(ids, s, s')
    ensures s.rejected <= s'.rejected <= s.rejected + 1
    ensures Remaining(s') < Remaining(s) + 4 * (s'.rejected - s.rejected)
  {
    hide BoardOk, Judge, TurnOk, ResultOk;
  }

  lemma NotNegative(ids: Ids, s: State)
    requires Inv(ids, s)
    ensures 0 <= Remaining(s)
  {
  }

  /**
   MAIN: every game ends: a run is no longer than its rejected moves make it.
   */
  lemma {:induction false} GameEnds(ids: Ids, run: seq<State>, k: nat)
    requires IsRun(ids, run) && k < |run|
    ensures k + Remaining(run[k]) <= 99 + 4 * run[k].rejected
    ensures k <= 99 + 4 * run[k].rejected
  {
    hide Inv, Next, Remaining, Init;
    RunOk(ids, run, k);
    NotNegative(ids, run[k]);
    if k > 0 {
      GameEnds(ids, run, k - 1);
      RunOk(ids, run, k - 1);
      StepCounts(ids, run[k - 1], run[k]);
    } else {
      AllRemains(run[0]);
    }
  }

  lemma AllRemains(s: State)
    requires Init(s)
    ensures Remaining(s) == 99
  {
  }
}
