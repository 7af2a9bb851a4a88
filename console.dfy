/** game/Game.java, the console side: processConsoleMove reads a 1-based hole and a
    colour letter, rejects what Player 1 may not play, and hands the move to
    sowSeeds; parseColor and getCurrentPlayer are the two selections it relies on. */
module Console {
  import opened Rules
  import opened Moves
  import Elements

  /** String.toUpperCase on the characters that matter here: a..z become A..Z. */
  function UpperChar(c: char): (r: char)
    ensures 'a' <= c <= 'z' ==> r as int == c as int - 32
    ensures !('a' <= c <= 'z') ==> r == c
  {
    if 'a' <= c <= 'z' then (c as int - 32) as char else c
  }

  function Upper(s: string): (r: string)
    ensures |r| == |s|
    ensures forall i :: 0 <= i < |s| ==> r[i] == UpperChar(s[i])
  {
    seq(|s|, i requires 0 <= i < |s| => UpperChar(s[i]))
  }

  /** The pattern ^(\d{1,2})([RB])$: one or two digits, then R or B. */
  predicate Matches(u: string)
  {
    && 2 <= |u| <= 3
    && AllDigits(u[..|u| - 1])
    && (u[|u| - 1] == 'R' || u[|u| - 1] == 'B')
  }

  /** parseColor: the upper-cased code "B" is BLUE, "R" is RED, anything else throws. */
  function ParseColor(code: string): (r: Option<Color>)
    ensures r == Some(Blue) <==> Upper(code) == "B"
    ensures r == Some(Red) <==> Upper(code) == "R"
    ensures r == None <==> Upper(code) != "B" && Upper(code) != "R"
  {
    var u := Upper(code);
    if u == "B" then Some(Blue)
    else if u == "R" then Some(Red)
    else None
  }

  /** Why a console line is turned away before the board is touched. */
  datatype Refusal = BadFormat | BadHole | NotYours

  datatype Parsed = Accepted(move: Move) | Refused(reason: Refusal)

  /** The checks of processConsoleMove before sowSeeds: the pattern on the upper-cased
      line, the typed number minus one as the hole, the range 0..15, then even holes
      only. */
  function Parse(input: string): (r: Parsed)
    ensures r.Accepted? ==> Matches(Upper(input)) && 0 <= r.move.hole < TOTAL_HOLES && r.move.hole % 2 == 0
  {
    var u := Upper(input);
    if !Matches(u) then Refused(BadFormat)
    else
      var holeIndex := Value(u[..|u| - 1]) - 1;
      match ParseColor([u[|u| - 1]])
      case None => Refused(BadFormat)
      case Some(chosenColor) =>
        if holeIndex < 0 || holeIndex >= TOTAL_HOLES then Refused(BadHole)
        else if holeIndex % 2 == 1 then Refused(NotYours)
        else Accepted(Move(holeIndex, chosenColor))
  }

  /** The number typed on an upper-cased line that matches the pattern. */
  function Typed(u: string): nat
    requires Matches(u)
  {
    Value(u[..|u| - 1])
  }

  /** A line is accepted exactly when its upper-cased form matches the pattern and
      names an odd number from 1 to 16; the move is then that number minus one, an
      even hole of Player 1, with the colour of the final letter. Each refusal has
      its own cause. */
  lemma ParseSpec(input: string)
    ensures var u := Upper(input);
      && (Parse(input).Accepted? <==> Matches(u) && 1 <= Typed(u) <= TOTAL_HOLES && Typed(u) % 2 == 1)
      && (Parse(input) == Refused(BadFormat) <==> !Matches(u))
      && (Parse(input) == Refused(BadHole) <==> Matches(u) && !(1 <= Typed(u) <= TOTAL_HOLES))
      && (Parse(input).Accepted? ==>
            var m := Parse(input).move;
            && m.hole == Typed(u) - 1
            && 0 <= m.hole < TOTAL_HOLES && m.hole % 2 == 0
            && ColorChar(m.color) == u[|u| - 1])
  {
    var u := Upper(input);
    if Matches(u) {
      assert Upper([u[|u| - 1]]) == [u[|u| - 1]];
    }
  }

  /** A numeral of at most two digits followed by a colour letter matches the pattern,
      and the typed number is read back. */
  lemma TypedLine(n: nat, letter: char)
    requires 1 <= n < 100 && (UpperChar(letter) == 'R' || UpperChar(letter) == 'B')
    ensures var u := Upper(Decimal(n) + [letter]);
      Matches(u) && Typed(u) == n && u[|u| - 1] == UpperChar(letter)
  {
    var u := Upper(Decimal(n) + [letter]);
    assert u[..|u| - 1] == Decimal(n);
    ValueOfDecimal(n);
    if n >= 10 {
      assert Decimal(n) == Decimal(n / 10) + [DigitChar(n % 10)];
    }
  }

  /** Typing the 1-based number of an even hole and its colour letter, in either case,
      yields that move. */
  lemma ParseTyped(hole: int, c: Color, lower: bool)
    requires 0 <= hole < TOTAL_HOLES && hole % 2 == 0
    ensures var letter := if lower then ColorChar(c) as int + 32 else ColorChar(c) as int;
      Parse(Decimal(hole + 1) + [letter as char]) == Accepted(Move(hole, c))
  {
    var letter := if lower then ColorChar(c) as int + 32 else ColorChar(c) as int;
    assert UpperChar(letter as char) == ColorChar(c);
    var line := Decimal(hole + 1) + [letter as char];
    TypedLine(hole + 1, letter as char);
    ParseSpec(line);
  }

  /** Move.toString writes the 0-based hole, the console reads a 1-based one: the
      string of any move on an even hole is refused at the console. */
  lemma ToStringRefused(m: Move)
    requires 0 <= m.hole < TOTAL_HOLES && m.hole % 2 == 0
    ensures Parse(ToString(m)).Refused?
    ensures m.hole == 0 <==> Parse(ToString(m)) == Refused(BadHole)
  {
    var u := Upper(ToString(m));
    ToStringShape(m);
    assert u[..|u| - 1] == ToString(m)[..|u| - 1];
  }

  /** processConsoleMove: the line is checked, and a move that passes is handed to
      sowSeeds; an exception from sowSeeds is caught and the line refused. The
      deferred switchPlayer is not part of this method. */
  method ProcessConsoleMove(input: string, board: Elements.Board) returns (accepted: bool)
    requires board.Valid()
    modifies board, board.holes
    ensures board.Valid() && board.holes == old(board.holes)
    ensures accepted <==> Parse(input).Accepted? && Sow(old(board.State()), Parse(input).move.hole, Parse(input).move.color).Sown?
    ensures accepted ==> board.State() == Sow(old(board.State()), Parse(input).move.hole, Parse(input).move.color).sowing.after
    ensures !accepted ==> board.State() == old(board.State())
  {
    var u := Upper(input);
    if !Matches(u) {
      return false;
    }
    var holeIndex := Value(u[..|u| - 1]) - 1;
    var chosenColor := ParseColor([u[|u| - 1]]);
    if chosenColor.None? {
      return false;
    }
    if holeIndex < 0 || holeIndex >= board.holes.Length {
      return false;
    }
    if holeIndex % 2 == 1 {
      return false;
    }
    var error := board.SowSeeds(holeIndex, chosenColor.value);
    if error.Some? {
      return false;
    }
    return true;
  }

  /** A line the console accepts is played as a legal move exactly when Player 1 is
      to move and the hole holds the colour. */
  lemma AcceptedIsLegal(b: BoardState, input: string)
    requires Parse(input).Accepted?
    requires b.current == 1 || b.current == 2
    ensures var m := Parse(input).move;
      Sow(b, m.hole, m.color).Sown? <==> b.current == 1 && b.holes[m.hole].Count(m.color) > 0
  {
    ParseSpec(input);
  }

  /** getCurrentPlayer: player1 when the board's current player is 1, player2 otherwise. */
  function CurrentPlayer<P>(b: BoardState, player1: P, player2: P): (r: P)
    ensures b.current == 1 ==> r == player1
    ensures b.current != 1 ==> r == player2
  {
    if b.current == 1 then player1 else player2
  }

  /** switchPlayer hands the turn to the other player object. */
  lemma CurrentPlayerAlternates<P>(b: BoardState, player1: P, player2: P)
    requires b.current == 1 || b.current == 2
    ensures CurrentPlayer(SwitchPlayer(b), player1, player2) == CurrentPlayer(b, player2, player1)
    ensures CurrentPlayer(SwitchPlayer(SwitchPlayer(b)), player1, player2) == CurrentPlayer(b, player1, player2)
  {
  }
}
