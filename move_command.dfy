/**
  The move command carried by an issue title: the fixed prefix and then one decimal
  digit, which is the cell index. The regular expression is matched at the start of
  the title only, so whatever follows the digit is ignored, and the digit may be 9.
 */
module MoveCommand {

  import opened Wrappers
  import opened Board

  const MOVE_PREFIX: string := "tic-tac-toe|move|"

  predicate IsDigit(c: char) {
    '0' <= c <= '9'
  }

  function DigitValue(c: char): nat
    requires IsDigit(c)
  {
    c as int - '0' as int
  }

  /** The cell index named by `title`, or None when the title is not a move command. */
  function Parse(title: string): Option<nat> {
    var n := |MOVE_PREFIX|;
    if |title| > n && title[..n] == MOVE_PREFIX && IsDigit(title[n])
    then Some(DigitValue(title[n]))
    else None
  }

  /** The issue title the board links carry for a single-digit cell index. */
  function MoveTitle(i: nat): string
    requires i < 10
  {
    MOVE_PREFIX + [DigitChar(i)]
  }

  /** Parsing succeeds with `i` exactly when the title starts with the command for digit `i`. */
  lemma ParseIsPrefixMatch(title: string, i: nat)
    ensures Parse(title) == Some(i) <==> i < 10 && MoveTitle(i) <= title
  {
    var n := |MOVE_PREFIX|;
    if Parse(title) == Some(i) {
      assert DigitChar(i) == title[n];
      assert MoveTitle(i) == title[..n + 1];
    }
    if i < 10 && MoveTitle(i) <= title {
      assert title[..n] == MoveTitle(i)[..n];
      assert title[n] == MoveTitle(i)[n];
    }
  }

  /** A title is rejected exactly when it starts with no command for any digit. */
  lemma ParseRejects(title: string)
    ensures Parse(title) == None <==> forall i :: 0 <= i < 10 ==> !(MoveTitle(i) <= title)
  {
    if Parse(title).Some? {
      ParseIsPrefixMatch(title, Parse(title).value);
    } else {
      forall i | 0 <= i < 10 ensures !(MoveTitle(i) <= title) {
        ParseIsPrefixMatch(title, i);
      }
    }
  }

  /** A parsed index is a single digit, 0 to 9; 9 gets through although the board has nine cells. */
  lemma ParseBound(title: string)
    ensures Parse(title).Some? ==> Parse(title).value <= 9
    ensures Parse(MoveTitle(9)) == Some(9)
  {
    ParseIsPrefixMatch(MoveTitle(9), 9);
  }

  /** Text after the digit does not change the parse. */
  lemma ParseIgnoresTrailing(title: string, rest: string)
    requires Parse(title).Some?
    ensures Parse(title + rest) == Parse(title)
  {
    var n := |MOVE_PREFIX|;
    assert (title + rest)[..n] == title[..n];
    assert (title + rest)[n] == title[n];
  }

  /** The title built for a cell parses back to that cell, whatever follows it. */
  lemma MoveTitleRoundTrip(i: nat, rest: string)
    requires i < 10
    ensures Parse(MoveTitle(i) + rest) == Some(i)
  {
    ParseIsPrefixMatch(MoveTitle(i) + rest, i);
    assert MoveTitle(i) <= MoveTitle(i) + rest;
  }
}
