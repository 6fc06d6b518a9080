/**
  The stored game state and the move it accepts (the guarded block of `main` in
  game/update_game.py, lines 72-84), as a function on values. The class in
  module Engine performs the same update in place and is proved against `Step`.
 */
module Transition {

  import opened Board

  datatype Status = InProgress | Win | Draw

  /** One entry of the history: who submitted the move and what it was. */
  datatype MoveRecord = MoveRecord(player: string, move: string)

  datatype GameState = GameState(board: seq<Cell>, status: Status, nextPlayer: Player, moves: seq<MoveRecord>)

  predicate WellFormed(s: GameState) {
    IsBoard(s.board)
  }

  /** The description recorded for a move, such as "X to cell 4". */
  function MoveText(p: Player, i: nat): string
    requires i < BOARD_SIZE
  {
    Symbol(p) + " to cell " + [DigitChar(i)]
  }

  /** The guard: the target cell is empty and the game is still being played. */
  predicate Legal(s: GameState, i: nat)
    requires WellFormed(s) && i < BOARD_SIZE
  {
    s.board[i] == Empty && s.status == InProgress
  }

  /** The state after `player` asks for cell `i`; an illegal move is a silent no-op. */
  function Step(s: GameState, i: nat, player: string): GameState
    requires WellFormed(s) && i < BOARD_SIZE
  {
    if !Legal(s, i) then s
    else
      var current := s.nextPlayer;
      var board := s.board[i := Mark(current)];
      var moves := s.moves + [MoveRecord(player, MoveText(current, i))];
      match CheckWinner(board)
      case DrawResult => GameState(board, Draw, current, moves)
      case Winner(_) => GameState(board, Win, current, moves)
      case NoWinner => GameState(board, InProgress, Other(current), moves)
  }

  /** The status the evaluator's verdict calls for. */
  function StatusOf(o: Outcome): Status {
    match o
    case NoWinner => InProgress
    case Winner(_) => Win
    case DrawResult => Draw
  }

  /** The stored status agrees with what the evaluator says of the board. */
  predicate Consistent(s: GameState)
    requires WellFormed(s)
  {
    s.status == StatusOf(CheckWinner(s.board))
  }

  /**
    Turns alternate, X first: while the game runs, X has one mark more than O exactly
    when O is to move; once it is over, `next_player` still names the last mover.
   */
  predicate Alternating(s: GameState)
    requires WellFormed(s)
  {
    Count(s.board, X) == Count(s.board, O) + (if (s.status == InProgress) == (s.nextPlayer == X) then 0 else 1)
  }

  /** Every move record stands for exactly one filled cell. */
  predicate MovesMatchBoard(s: GameState)
    requires WellFormed(s)
  {
    Count(s.board, X) + Count(s.board, O) == |s.moves|
  }

  predicate Invariant(s: GameState) {
    WellFormed(s) && Consistent(s) && Alternating(s) && MovesMatchBoard(s)
  }

  /** An illegal move (occupied cell or finished game) leaves the whole state as it was. */
  lemma StepIllegalIsNoOp(s: GameState, i: nat, player: string)
    requires WellFormed(s) && i < BOARD_SIZE
    ensures !Legal(s, i) <==> Step(s, i, player) == s
  {
  }

  /**
    A legal move writes the mover's symbol into the chosen empty cell and no other,
    and appends one record naming the submitter and the move to the history.
   */
  lemma StepChangesOneCell(s: GameState, i: nat, player: string)
    requires WellFormed(s) && i < BOARD_SIZE && Legal(s, i)
    ensures var t := Step(s, i, player);
      && WellFormed(t)
      && s.board[i] == Empty && t.board[i] == Mark(s.nextPlayer)
      && (forall j :: 0 <= j < BOARD_SIZE && j != i ==> t.board[j] == s.board[j])
      && t.moves == s.moves + [MoveRecord(player, Symbol(s.nextPlayer) + " to cell " + [DigitChar(i)])]
  {
  }

  /**
    After a legal move the status follows the evaluator's verdict on the new board;
    the next player toggles only when there is no verdict yet.
   */
  lemma StepStatus(s: GameState, i: nat, player: string)
    requires WellFormed(s) && i < BOARD_SIZE && Legal(s, i)
    ensures var t := Step(s, i, player);
      && (t.status == Draw <==> CheckWinner(t.board) == DrawResult)
      && (t.status == Win <==> CheckWinner(t.board).Winner?)
      && (t.status == InProgress <==> CheckWinner(t.board) == NoWinner)
      && (t.nextPlayer == if t.status == InProgress then Other(s.nextPlayer) else s.nextPlayer)
  {
  }

  /** A filled cell is never overwritten, and the history only grows at its end, by at most one record. */
  lemma StepKeepsHistory(s: GameState, i: nat, player: string)
    requires WellFormed(s) && i < BOARD_SIZE
    ensures var t := Step(s, i, player);
      && WellFormed(t)
      && (forall j :: 0 <= j < BOARD_SIZE && s.board[j] != Empty ==> t.board[j] == s.board[j])
      && s.moves <= t.moves && |t.moves| <= |s.moves| + 1
  {
  }

  /** A finished game accepts no move. */
  lemma StepTerminal(s: GameState, i: nat, player: string)
    requires WellFormed(s) && i < BOARD_SIZE && s.status != InProgress
    ensures Step(s, i, player) == s
  {
  }

  /** A move keeps the status, turn order and history in agreement with the board. */
  lemma StepPreservesInvariant(s: GameState, i: nat, player: string)
    requires Invariant(s) && i < BOARD_SIZE
    ensures Invariant(Step(s, i, player))
  {
    if Legal(s, i) {
      var t := Step(s, i, player);
      CountAfterMark(s.board, i, s.nextPlayer, X);
      CountAfterMark(s.board, i, s.nextPlayer, O);
      assert t.board == s.board[i := Mark(s.nextPlayer)];
    }
  }

  /** The state the game starts from: an empty board, X to move, no history. */
  function Initial(): GameState {
    GameState(seq(BOARD_SIZE, _ => Empty), InProgress, X, [])
  }

  lemma InitialInvariant()
    ensures Invariant(Initial())
  {
    var b := Initial().board;
    assert CheckWinner(b) == NoWinner by {
      assert !Full(b) by { assert b[0] == Empty; }
      CheckWinnerUndecided(b);
    }
    EmptyCount(b);
  }

  /** An empty board holds no marks. */
  lemma {:induction false} EmptyCount(b: seq<Cell>)
    requires forall i :: 0 <= i < |b| ==> b[i] == Empty
    ensures Count(b, X) == 0 && Count(b, O) == 0
  {
    if b != [] {
      EmptyCount(b[1..]);
    }
  }

  /** One issue: a move command for a cell, submitted by `player`. */
  datatype Command = Command(cell: nat, player: string)

  /** A run of issues; a cell outside the board changes nothing, as in the script, which stops before writing. */
  function Play(s: GameState, cmds: seq<Command>): (r: GameState)
    requires WellFormed(s)
    ensures WellFormed(r)
    decreases |cmds|
  {
    if cmds == [] then s
    else
      var c := cmds[0];
      var t := if c.cell < BOARD_SIZE then Step(s, c.cell, c.player) else s;
      Play(t, cmds[1..])
  }

  /** Every state reached by a run of issues keeps the invariant. */
  lemma {:induction false} PlayPreservesInvariant(s: GameState, cmds: seq<Command>)
    requires Invariant(s)
    ensures Invariant(Play(s, cmds))
    decreases |cmds|
  {
    if cmds != [] {
      var c := cmds[0];
      if c.cell < BOARD_SIZE {
        StepPreservesInvariant(s, c.cell, c.player);
        PlayPreservesInvariant(Step(s, c.cell, c.player), cmds[1..]);
      } else {
        PlayPreservesInvariant(s, cmds[1..]);
      }
    }
  }

  /** Marks, once written, survive every later issue, and the history is append-only. */
  lemma {:induction false} PlayKeepsMarks(s: GameState, cmds: seq<Command>)
    requires WellFormed(s)
    ensures var t := Play(s, cmds);
      && (forall j :: 0 <= j < BOARD_SIZE && s.board[j] != Empty ==> t.board[j] == s.board[j])
      && s.moves <= t.moves && |t.moves| <= |s.moves| + |cmds|
    decreases |cmds|
  {
    if cmds != [] {
      var c := cmds[0];
      var t := if c.cell < BOARD_SIZE then Step(s, c.cell, c.player) else s;
      if c.cell < BOARD_SIZE {
        StepKeepsHistory(s, c.cell, c.player);
      }
      PlayKeepsMarks(t, cmds[1..]);
    }
  }

  /** A game played from the start never records more moves than there are cells. */
  lemma PlayedGameBound(cmds: seq<Command>)
    ensures Invariant(Play(Initial(), cmds))
    ensures |Play(Initial(), cmds).moves| <= BOARD_SIZE
  {
    InitialInvariant();
    PlayPreservesInvariant(Initial(), cmds);
    CountFilled(Play(Initial(), cmds).board);
  }

  /** Once finished, a game stays exactly as it is whatever issues follow. */
  lemma {:induction false} PlayTerminal(s: GameState, cmds: seq<Command>)
    requires WellFormed(s) && s.status != InProgress
    ensures Play(s, cmds) == s
    decreases |cmds|
  {
    if cmds != [] {
      PlayTerminal(s, cmds[1..]);
    }
  }

  /** The centre opening: X takes cell 4 of the empty board and O moves next. */
  lemma CentreOpening(player: string)
    ensures Step(Initial(), 4, player)
      == GameState(Initial().board[4 := Mark(X)], InProgress, O, [MoveRecord(player, "X to cell 4")])
  {
    var b := Initial().board[4 := Mark(X)];
    assert !Full(b) by { assert b[0] == Empty; }
    assert NoLineWon(b) by {
      forall k | 0 <= k < |WINNING_LINES| ensures !LineWon(b, k) {
        assert b[4] == Mark(X);
      }
    }
    CheckWinnerUndecided(b);
    assert DigitChar(4) == '4';
    assert MoveText(X, 4) == "X to cell 4";
  }

  /** X completes the top row by taking cell 2 and wins; X stays the named player. */
  lemma TopRowWin(s: GameState, player: string)
    requires s.board == [Mark(X), Mark(X), Empty, Mark(O), Mark(O), Empty, Empty, Empty, Empty]
    requires s.status == InProgress && s.nextPlayer == X
    ensures Step(s, 2, player).status == Win && Step(s, 2, player).nextPlayer == X
    ensures CheckWinner(Step(s, 2, player).board) == Winner(X)
  {
    var b := s.board[2 := Mark(X)];
    assert FirstWonLine(b, 0, 0, X);
    CheckWinnerIsFirstMatch(b, X);
  }

  /** On a full board every cell is occupied, so any move is a no-op. */
  lemma FullBoardNoOp(s: GameState, i: nat, player: string)
    requires WellFormed(s) && Full(s.board) && i < BOARD_SIZE
    ensures Step(s, i, player) == s
  {
  }
}
