/**
  One run of the script (`main` of game/update_game.py, after the state has been
  loaded): the title is parsed, the move is applied to the game state in place, and
  the outcome says what the run writes. The state file receives `State()` and
  README.md receives the rendered document, only when a move was applied.
 */
module Engine {

  import opened Wrappers
  import opened Board
  import opened MoveCommand
  import opened Transition
  import opened Readme

  datatype RunOutcome =
    | InvalidCommand            // no move command in the title: a diagnostic, nothing written
    | IndexOutOfRange(index: nat)  // digit 9: indexing the board fails before anything changes
    | IllegalMove               // occupied cell or finished game: nothing written, silently
    | Written(readme: string)   // both files rewritten; `readme` is the new README.md

  /** The loaded `game_state` dictionary, whose board list is updated in place. */
  class Game {
    const board: array<Cell>
    var status: Status
    var nextPlayer: Player
    var moves: seq<MoveRecord>

    ghost predicate Valid()
      reads this
    {
      board.Length == BOARD_SIZE
    }

    function State(): GameState
      reads this, board
    {
      GameState(board[..], status, nextPlayer, moves)
    }

    /** The state as the state file holds it. */
    constructor (s: GameState)
      requires WellFormed(s)
      ensures Valid() && fresh(board)
      ensures State() == s
    {
      board := new Cell[BOARD_SIZE](i => if 0 <= i < |s.board| then s.board[i] else Empty);
      status := s.status;
      nextPlayer := s.nextPlayer;
      moves := s.moves;
      new;
      assert board[..] == s.board;
    }

    /** The guarded update of `main`: lines 72-84. */
    method ApplyMove(cellIndex: nat, player: string) returns (applied: bool)
      requires Valid() && cellIndex < BOARD_SIZE
      modifies this, board
      ensures Valid()
      ensures applied == Legal(old(State()), cellIndex)
      ensures State() == Step(old(State()), cellIndex, player)
    {
      applied := board[cellIndex] == Empty && status == InProgress;
      if applied {
        var currentPlayer := nextPlayer;
        board[cellIndex] := Mark(currentPlayer);
        moves := moves + [MoveRecord(player, MoveText(currentPlayer, cellIndex))];
        var winner := CheckWinner(board[..]);
        if winner == DrawResult {
          status := Draw;
        } else if winner.Winner? {
          status := Win;
        } else {
          nextPlayer := Other(currentPlayer);
        }
      }
    }

    /** `main` from the parse on: what one issue titled `title`, opened by `player`, does. */
    method ProcessTitle(title: string, player: string) returns (outcome: RunOutcome)
      requires Valid()
      modifies this, board
      ensures Valid()
      ensures Parse(title) == None ==> outcome == InvalidCommand && State() == old(State())
      ensures Parse(title).Some? && Parse(title).value >= BOARD_SIZE ==>
        outcome == IndexOutOfRange(Parse(title).value) && State() == old(State())
      ensures Parse(title).Some? && Parse(title).value < BOARD_SIZE ==>
        && State() == Step(old(State()), Parse(title).value, player)
        && outcome == if Legal(old(State()), Parse(title).value) then Written(Render(State())) else IllegalMove
      ensures outcome.Written? <==> State() != old(State())
    {
      var parsed := Parse(title);
      if parsed.None? {
        return InvalidCommand;
      }
      var cellIndex := parsed.value;
      if cellIndex >= board.Length {
        return IndexOutOfRange(cellIndex);
      }
      ghost var before := State();
      var applied := ApplyMove(cellIndex, player);
      StepIllegalIsNoOp(before, cellIndex, player);
      if applied {
        var readme := GenerateReadme(State());
        outcome := Written(readme);
      } else {
        outcome := IllegalMove;
      }
    }
  }
}
