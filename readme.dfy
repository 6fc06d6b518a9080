/**
  The status document written to README.md (`generate_readme`): a title, a line
  chosen by the status, the 3x3 board as a Markdown table whose open cells link to
  a pre-filled move issue while the game runs, and the last five moves, newest first.
  The functions below say what the document is; `GenerateReadme` builds it with the
  script's loops and is proved to produce `Render`.
 */
module Readme {

  import opened Wrappers
  import opened Board
  import opened MoveCommand
  import opened Transition

  const TITLE: string := "### Community Tic-Tac-Toe\n\n"
  const TABLE_HEADING: string := "| | | |\n|---|---|---|\n"
  const HISTORY_HEADING: string := "\n### Last Moves\n\n| Player | Move |\n|---|---|\n"
  const ISSUE_URL: string := "https://github.com/kxrthikeya/kxrthikeya/issues/new?title="
  const ISSUE_BODY: string := "&body=Just+push+'Submit+new+issue'!"
  const HISTORY_LENGTH: nat := 5

  /** The evaluator's result as an f-string shows it: a symbol, "Draw" or "None". */
  function OutcomeText(o: Outcome): string {
    match o
    case Winner(p) => Symbol(p)
    case DrawResult => "Draw"
    case NoWinner => "None"
  }

  /** The line under the title; for a won game the winner is re-derived from the board. */
  function StatusLine(s: GameState): string
    requires WellFormed(s)
  {
    match s.status
    case InProgress => "**It's " + Symbol(s.nextPlayer) + "'s turn!** Click a square to make your move.\n\n"
    case Win => "**Game Over! " + OutcomeText(CheckWinner(s.board)) + " wins!**\n\n"
    case Draw => "**Game Over! It's a draw!**\n\n"
  }

  /** What one cell of the table shows. */
  datatype CellView = Filled(player: Player) | MoveLink(title: string) | Blank

  function View(s: GameState, i: nat): CellView
    requires WellFormed(s) && i < BOARD_SIZE
  {
    if s.board[i] != Empty then Filled(s.board[i].player)
    else if s.status == InProgress then MoveLink(MoveTitle(i))
    else Blank
  }

  function CellText(v: CellView): string {
    match v
    case Filled(p) => " " + Symbol(p) + " |"
    case MoveLink(t) => " [ ](" + ISSUE_URL + t + ISSUE_BODY + ") |"
    case Blank => "   |"
  }

  /** The first `n` cells of the row that starts at cell `start`. */
  function RowCells(s: GameState, start: nat, n: nat): string
    requires WellFormed(s) && start + n <= BOARD_SIZE
  {
    if n == 0 then "" else RowCells(s, start, n - 1) + CellText(View(s, start + n - 1))
  }

  function RowText(s: GameState, r: nat): string
    requires WellFormed(s) && r < 3
  {
    "|" + RowCells(s, 3 * r, 3) + "\n"
  }

  /** The first `rows` rows of the table. */
  function Grid(s: GameState, rows: nat): string
    requires WellFormed(s) && rows <= 3
  {
    if rows == 0 then "" else Grid(s, rows - 1) + RowText(s, rows - 1)
  }

  /** The last five moves, or all of them when there are fewer. */
  function Recent(m: seq<MoveRecord>): seq<MoveRecord> {
    if |m| <= HISTORY_LENGTH then m else m[|m| - HISTORY_LENGTH..]
  }

  function Reverse(m: seq<MoveRecord>): seq<MoveRecord> {
    if m == [] then [] else Reverse(m[1..]) + [m[0]]
  }

  /** The entries of the "Last Moves" table, in the order shown. */
  function History(m: seq<MoveRecord>): seq<MoveRecord> {
    Reverse(Recent(m))
  }

  function EntryText(r: MoveRecord): string {
    "| @" + r.player + " | " + r.move + " |\n"
  }

  function EntriesText(es: seq<MoveRecord>): string {
    if es == [] then "" else EntryText(es[0]) + EntriesText(es[1..])
  }

  /** The whole document. */
  function Render(s: GameState): string
    requires WellFormed(s)
  {
    TITLE + StatusLine(s) + TABLE_HEADING + Grid(s, 3) + HISTORY_HEADING + EntriesText(History(s.moves))
  }

  /** generate_readme: the document built by appending, row by row and move by move. */
  method GenerateReadme(s: GameState) returns (readme: string)
    requires WellFormed(s)
    ensures readme == Render(s)
  {
    var board := s.board;
    var statusLine;
    if s.status == InProgress {
      statusLine := "**It's " + Symbol(s.nextPlayer) + "'s turn!** Click a square to make your move.\n\n";
    } else if s.status == Win {
      var winner := CheckWinner(board);
      statusLine := "**Game Over! " + OutcomeText(winner) + " wins!**\n\n";
    } else {
      statusLine := "**Game Over! It's a draw!**\n\n";
    }
    assert statusLine == StatusLine(s);
    readme := TITLE + statusLine + TABLE_HEADING;
    ghost var header := readme;
    var i := 0;
    ghost var r := 0;
    while i < BOARD_SIZE
      invariant 0 <= r <= 3 && i == 3 * r
      invariant readme == header + Grid(s, r)
    {
      var row := TableRow(s, i);
      assert i / 3 == r;
      Associative(header, Grid(s, r), row);
      readme := readme + row;
      i, r := i + 3, r + 1;
    }
    assert r == 3;
    var history := MoveHistory(s.moves);
    assert Render(s) == header + Grid(s, 3) + HISTORY_HEADING + history;
    readme := readme + HISTORY_HEADING + history;
  }

  /** generate_readme's last loop: one table line per recent move, newest first. */
  method MoveHistory(moves: seq<MoveRecord>) returns (text: string)
    ensures text == EntriesText(History(moves))
  {
    text := "";
    var last := if |moves| <= HISTORY_LENGTH then moves else moves[|moves| - HISTORY_LENGTH..];
    var k := |last|;
    while k > 0
      invariant 0 <= k <= |last|
      invariant text == EntriesText(Reverse(last[k..]))
    {
      k := k - 1;
      var move := last[k];
      assert last[k..][1..] == last[k + 1..];
      EntriesTextAppend(Reverse(last[k + 1..]), move);
      text := text + ("| @" + move.player + " | " + move.move + " |\n");
    }
    assert last[0..] == last;
  }

  /** One pass of generate_readme's row loop, with its inner cell loop: the table row whose first cell is `start`. */
  method TableRow(s: GameState, start: nat) returns (row: string)
    requires WellFormed(s) && start % 3 == 0 && start < BOARD_SIZE
    ensures row == RowText(s, start / 3)
  {
    var board := s.board;
    row := "|";
    var j := 0;
    while j < 3
      invariant 0 <= j <= 3
      invariant row == "|" + RowCells(s, start, j)
    {
      var cellIndex := start + j;
      var cell;
      if board[cellIndex] != Empty {
        cell := " " + Symbol(board[cellIndex].player) + " |";
      } else if s.status == InProgress {
        var issueTitle := MOVE_PREFIX + [DigitChar(cellIndex)];
        var issueLink := ISSUE_URL + issueTitle + ISSUE_BODY;
        cell := " [ ](" + issueLink + ") |";
      } else {
        cell := "   |";
      }
      assert cell == CellText(View(s, cellIndex));
      Associative("|", RowCells(s, start, j), cell);
      row := row + cell;
      j := j + 1;
    }
    row := row + "\n";
  }

  lemma Associative(a: string, b: string, c: string)
    ensures (a + b) + c == a + (b + c)
  {
  }

  lemma {:induction false} EntriesTextAppend(es: seq<MoveRecord>, r: MoveRecord)
    ensures EntriesText(es + [r]) == EntriesText(es) + EntryText(r)
  {
    if es != [] {
      assert (es + [r])[1..] == es[1..] + [r];
      EntriesTextAppend(es[1..], r);
    }
  }

  lemma {:induction false} ReverseAt(m: seq<MoveRecord>)
    ensures |Reverse(m)| == |m|
    ensures forall k :: 0 <= k < |m| ==> Reverse(m)[k] == m[|m| - 1 - k]
  {
    if m != [] {
      ReverseAt(m[1..]);
    }
  }

  /** The history shows at most five moves: the last ones recorded, newest first. */
  lemma HistoryIsNewestFirst(m: seq<MoveRecord>)
    ensures |History(m)| == if |m| < HISTORY_LENGTH then |m| else HISTORY_LENGTH
    ensures forall k :: 0 <= k < |History(m)| ==> History(m)[k] == m[|m| - 1 - k]
  {
    ReverseAt(Recent(m));
  }

  /**
    A cell carries a move link exactly when taking it is a legal move, and the
    link's issue title, with anything after it, parses back to that cell.
   */
  lemma LinksAreLegalMoves(s: GameState, i: nat, rest: string)
    requires WellFormed(s) && i < BOARD_SIZE
    ensures View(s, i).MoveLink? <==> Legal(s, i)
    ensures View(s, i).MoveLink? ==> Parse(View(s, i).title + rest) == Some(i)
  {
    MoveTitleRoundTrip(i, rest);
  }

  /** A filled cell shows its symbol whatever the status; an open cell of a finished game is blank. */
  lemma FilledAndBlankCells(s: GameState, i: nat)
    requires WellFormed(s) && i < BOARD_SIZE
    ensures s.board[i] != Empty ==> CellText(View(s, i)) == " " + Symbol(s.board[i].player) + " |"
    ensures View(s, i) == Blank <==> s.board[i] == Empty && s.status != InProgress
  {
  }

  /** A row of the table: a leading bar, then its three cells from left to right. */
  lemma RowIsThreeCells(s: GameState, r: nat)
    requires WellFormed(s) && r < 3
    ensures RowText(s, r) == "|" + CellText(View(s, 3 * r)) + CellText(View(s, 3 * r + 1)) + CellText(View(s, 3 * r + 2)) + "\n"
  {
    var start := 3 * r;
    var c0, c1, c2 := CellText(View(s, start)), CellText(View(s, start + 1)), CellText(View(s, start + 2));
    assert RowCells(s, start, 1) == c0;
    assert RowCells(s, start, 3) == (c0 + c1) + c2;
    Associative("|", c0, c1);
    Associative("|", c0 + c1, c2);
  }

  /** The table is three rows of three cells in row-major order. */
  lemma GridIsRowMajor(s: GameState)
    requires WellFormed(s)
    ensures Grid(s, 3) == RowText(s, 0) + RowText(s, 1) + RowText(s, 2)
  {
    assert Grid(s, 1) == RowText(s, 0);
  }

  /** In a consistent state the header of a won game names the symbol that holds the first complete triple. */
  lemma WinHeaderNamesWinner(s: GameState)
    requires WellFormed(s) && Consistent(s) && s.status == Win
    ensures CheckWinner(s.board).Winner?
    ensures StatusLine(s) == "**Game Over! " + Symbol(CheckWinner(s.board).player) + " wins!**\n\n"
  {
  }
}
