/**
  The 3x3 board and the win/draw evaluator `check_winner` of game/update_game.py.
  A board is a row-major sequence of nine cells; a cell is empty (`None` in the
  stored state) or holds a player's symbol.
 */
module Board {

  import opened Wrappers

  datatype Player = X | O

  datatype Cell = Empty | Mark(player: Player)

  /** What the evaluator returns: a winning symbol, "Draw", or None (no winner yet). */
  datatype Outcome = NoWinner | Winner(player: Player) | DrawResult

  const BOARD_SIZE: nat := 9

  type Index = i: nat | i < 9

  /** The eight winning triples in the evaluator's fixed scan order: rows, columns, diagonals. */
  const WINNING_LINES: seq<(Index, Index, Index)> :=
    [(0, 1, 2), (3, 4, 5), (6, 7, 8),
     (0, 3, 6), (1, 4, 7), (2, 5, 8),
     (0, 4, 8), (2, 4, 6)]

  predicate IsBoard(b: seq<Cell>) {
    |b| == BOARD_SIZE
  }

  function Other(p: Player): Player {
    if p == X then O else X
  }

  function Symbol(p: Player): string {
    if p == X then "X" else "O"
  }

  /** The decimal digit of a number below ten, as Python's str() writes it. */
  function DigitChar(d: nat): char
    requires d < 10
  {
    ('0' as int + d) as char
  }

  /** Every cell of line `k` holds `p`. */
  predicate LineOwnedBy(b: seq<Cell>, k: nat, p: Player)
    requires IsBoard(b) && k < |WINNING_LINES|
  {
    var (i, j, l) := WINNING_LINES[k];
    b[i] == Mark(p) && b[j] == Mark(p) && b[l] == Mark(p)
  }

  predicate LineWon(b: seq<Cell>, k: nat)
    requires IsBoard(b) && k < |WINNING_LINES|
  {
    LineOwnedBy(b, k, X) || LineOwnedBy(b, k, O)
  }

  /** Line `k` is held by `p` and no line scanned before it is held by anyone. */
  ghost predicate FirstWonLine(b: seq<Cell>, from: nat, k: nat, p: Player)
    requires IsBoard(b) && k < |WINNING_LINES|
  {
    LineOwnedBy(b, k, p) && forall i :: from <= i < k ==> !LineWon(b, i)
  }

  ghost predicate NoLineWon(b: seq<Cell>)
    requires IsBoard(b)
  {
    forall k :: 0 <= k < |WINNING_LINES| ==> !LineWon(b, k)
  }

  /** No cell of the board is empty. */
  predicate Full(b: seq<Cell>) {
    forall i :: 0 <= i < |b| ==> b[i] != Empty
  }

  /** The test of one triple: its first cell is filled and the other two hold the same value. */
  function LineWinner(b: seq<Cell>, k: nat): Option<Player>
    requires IsBoard(b) && k < |WINNING_LINES|
  {
    var (i, j, l) := WINNING_LINES[k];
    if b[i] != Empty && b[i] == b[j] && b[i] == b[l] then Some(b[i].player) else None
  }

  /** The scan over the triples from line `k` on, returning at the first match. */
  function Scan(b: seq<Cell>, k: nat): Option<Player>
    requires IsBoard(b) && k <= |WINNING_LINES|
    decreases |WINNING_LINES| - k
  {
    if k == |WINNING_LINES| then None
    else match LineWinner(b, k)
      case Some(p) => Some(p)
      case None => Scan(b, k + 1)
  }

  /** check_winner */
  function CheckWinner(b: seq<Cell>): Outcome
    requires IsBoard(b)
  {
    match Scan(b, 0)
    case Some(p) => Winner(p)
    case None => if Full(b) then DrawResult else NoWinner
  }

  lemma LineWinnerOwned(b: seq<Cell>, k: nat, p: Player)
    requires IsBoard(b) && k < |WINNING_LINES|
    ensures LineWinner(b, k) == Some(p) <==> LineOwnedBy(b, k, p)
    ensures LineWinner(b, k) == None <==> !LineWon(b, k)
  {
  }

  /** The scan from line `from` returns `p` exactly when the first line held by anyone is held by `p`. */
  lemma {:induction false} ScanFindsFirst(b: seq<Cell>, from: nat, p: Player)
    requires IsBoard(b) && from <= |WINNING_LINES|
    ensures Scan(b, from) == Some(p) <==> exists k :: from <= k < |WINNING_LINES| && FirstWonLine(b, from, k, p)
    decreases |WINNING_LINES| - from
  {
    if from < |WINNING_LINES| {
      ScanFindsFirst(b, from + 1, p);
      LineWinnerOwned(b, from, p);
      LineWinnerOwned(b, from, Other(p));
      match LineWinner(b, from)
      case Some(q) =>
        if q == p {
          assert FirstWonLine(b, from, from, p);
        } else {
          forall k | from <= k < |WINNING_LINES| ensures !FirstWonLine(b, from, k, p) {
            if k == from {
              assert LineOwnedBy(b, from, q);
            } else {
              assert LineWon(b, from);
            }
          }
        }
      case None =>
        if Scan(b, from + 1) == Some(p) {
          var k :| from + 1 <= k < |WINNING_LINES| && FirstWonLine(b, from + 1, k, p);
          assert FirstWonLine(b, from, k, p);
        } else {
          forall k | from <= k < |WINNING_LINES| ensures !FirstWonLine(b, from, k, p) {
            if k > from && FirstWonLine(b, from, k, p) {
              assert FirstWonLine(b, from + 1, k, p);
            }
          }
        }
    }
  }

  /** The scan from line `from` finds nothing exactly when no line from there on is held. */
  lemma {:induction false} ScanFindsNone(b: seq<Cell>, from: nat)
    requires IsBoard(b) && from <= |WINNING_LINES|
    ensures Scan(b, from) == None <==> forall k :: from <= k < |WINNING_LINES| ==> !LineWon(b, k)
    decreases |WINNING_LINES| - from
  {
    if from < |WINNING_LINES| {
      ScanFindsNone(b, from + 1);
      LineWinnerOwned(b, from, X);
      LineWinnerOwned(b, from, O);
    }
  }

  /** The evaluator names the symbol of the first held triple in scan order; a later triple never overrides it. */
  lemma CheckWinnerIsFirstMatch(b: seq<Cell>, p: Player)
    requires IsBoard(b)
    ensures CheckWinner(b) == Winner(p) <==> exists k :: 0 <= k < |WINNING_LINES| && FirstWonLine(b, 0, k, p)
  {
    ScanFindsFirst(b, 0, p);
  }

  /** "Draw" exactly when no triple is held and every cell is filled. */
  lemma CheckWinnerDraw(b: seq<Cell>)
    requires IsBoard(b)
    ensures CheckWinner(b) == DrawResult <==> NoLineWon(b) && Full(b)
  {
    ScanFindsNone(b, 0);
  }

  /** None (no winner yet) exactly when no triple is held and some cell is still empty. */
  lemma CheckWinnerUndecided(b: seq<Cell>)
    requires IsBoard(b)
    ensures CheckWinner(b) == NoWinner <==> NoLineWon(b) && !Full(b)
  {
    ScanFindsNone(b, 0);
  }

  /** Number of cells holding `p`. */
  function Count(b: seq<Cell>, p: Player): nat {
    if b == [] then 0 else (if b[0] == Mark(p) then 1 else 0) + Count(b[1..], p)
  }

  /** Filling an empty cell with `p` adds one to p's count and leaves the other count alone. */
  lemma {:induction false} CountAfterMark(b: seq<Cell>, i: nat, p: Player, q: Player)
    requires i < |b| && b[i] == Empty
    ensures Count(b[i := Mark(p)], q) == Count(b, q) + (if p == q then 1 else 0)
  {
    if i == 0 {
      assert b[i := Mark(p)][1..] == b[1..];
    } else {
      assert b[i := Mark(p)][1..] == b[1..][i - 1 := Mark(p)];
      CountAfterMark(b[1..], i - 1, p, q);
    }
  }

  /** The filled cells number at most the board's size, and all of it exactly when the board is full. */
  lemma {:induction false} CountFilled(b: seq<Cell>)
    ensures Count(b, X) + Count(b, O) <= |b|
    ensures Full(b) <==> Count(b, X) + Count(b, O) == |b|
  {
    if b != [] {
      CountFilled(b[1..]);
      if Full(b) {
        assert b[0] != Empty;
        match b[0]
        case Mark(p) =>
          assert p == X || p == O;
        assert Full(b[1..]) by {
          forall i | 0 <= i < |b[1..]| ensures b[1..][i] != Empty {
            assert b[1..][i] == b[i + 1];
          }
        }
      } else if b[0] != Empty {
        var i :| 0 <= i < |b| && b[i] == Empty;
        assert b[1..][i - 1] == Empty;
      }
    }
  }
}
