/** game/elements/Board.java: the board object the current game and all five
    search variants use. Holes are an array of (blue, red) counts; the two scores
    and the player to move are fields. Every method is proved against the pure
    rules in module Rules through State(). */
module Elements {
  import opened Rules
  import HoleArray

  class Board {
    var holes: array<Hole>
    var player1Seeds: int
    var player2Seeds: int
    var currentPlayer: int

    ghost predicate Valid()
      reads this
    {
      holes.Length == TOTAL_HOLES
    }

    /** The board as a value. */
    function State(): BoardState
      reads this, holes
      requires Valid()
    {
      BoardState(holes[..], player1Seeds, player2Seeds, currentPlayer)
    }

    /** new Board(): two blue and two red seeds in every hole, both scores 0; the
        starting player is 1 when the random coin comes up true, else 2. */
    constructor(coin: bool)
      ensures Valid() && fresh(holes)
      ensures State() == InitialBoard(if coin then 1 else 2)
    {
      var a := new Hole[TOTAL_HOLES];
      for i := 0 to TOTAL_HOLES
        invariant forall k :: 0 <= k < i ==> a[k] == Hole(INITIAL_SEEDS_PER_COLOR, INITIAL_SEEDS_PER_COLOR)
      {
        a[i] := EMPTY;
        for j := 0 to INITIAL_SEEDS_PER_COLOR
          invariant a[i] == Hole(j, j)
          invariant forall k :: 0 <= k < i ==> a[k] == Hole(INITIAL_SEEDS_PER_COLOR, INITIAL_SEEDS_PER_COLOR)
        {
          a[i] := a[i].Plus(Blue, 1);
          a[i] := a[i].Plus(Red, 1);
        }
      }
      holes := a;
      player1Seeds := 0;
      player2Seeds := 0;
      currentPlayer := if coin then 1 else 2;
    }

    /** hasSeeds: the hole holds at least one seed of the colour. */
    function HasSeeds(hole: int, c: Color): (r: bool)
      reads this, holes
      requires Valid() && 0 <= hole < TOTAL_HOLES
      ensures r <==> Rules.HasSeeds(State(), hole, c)
    {
      holes[hole].Count(c) > 0
    }

    /** switchPlayer */
    method SwitchPlayer()
      requires Valid()
      modifies this
      ensures Valid() && holes == old(holes)
      ensures State() == Rules.SwitchPlayer(old(State()))
    {
      currentPlayer := if currentPlayer == 1 then 2 else 1;
    }

    /** Total number of seeds on the board, as the first loop of checkGameStatus counts it. */
    method SeedsOnBoard() returns (total: nat)
      requires Valid()
      ensures total == Sum(State().holes)
    {
      total := 0;
      for i := 0 to TOTAL_HOLES
        invariant total == Sum(holes[..i])
      {
        assert holes[..i + 1][..i] == holes[..i];
        total := total + holes[i].Size();
      }
      assert holes[..TOTAL_HOLES] == holes[..];
    }

    /** The early-exit scan of checkGameStatus over getPlayerHoles(player). */
    method HasValidMove(player: int) returns (found: bool)
      requires Valid()
      ensures found <==> HasMove(State(), player)
    {
      var row := PlayerHoles(player);
      HasMoveInRow(State(), player);
      found := false;
      for k := 0 to |row|
        invariant forall m :: 0 <= m < k ==> holes[row[m]].Size() == 0
      {
        if holes[row[k]].Size() > 0 {
          found := true;
          break;
        }
      }
    }

    /** checkGameStatus: the end-of-game rules in their priority order; under the
        no-move rule the opponent of the stuck player sweeps an index half. */
    method CheckGameStatus() returns (status: GameStatus)
      requires Valid()
      modifies this, holes
      ensures Valid() && holes == old(holes)
      ensures status == CheckStatus(old(State())).status
      ensures State() == CheckStatus(old(State())).after
    {
      var totalSeedsOnBoard := SeedsOnBoard();
      if player1Seeds >= 33 {
        return GameStatus(true, Player1, Threshold);
      }
      if player2Seeds >= 33 {
        return GameStatus(true, Player2, Threshold);
      }
      if player1Seeds == 32 && player2Seeds == 32 {
        return GameStatus(true, Draw, EvenSplit);
      }
      if totalSeedsOnBoard < 8 {
        var winner := if player1Seeds > player2Seeds then Player1 else if player1Seeds < player2Seeds then Player2 else Draw;
        return GameStatus(true, winner, FewSeeds);
      }
      var hasValidMoveForPlayer1 := HasValidMove(1);
      var hasValidMoveForPlayer2 := HasValidMove(2);
      if (currentPlayer == 1 && !hasValidMoveForPlayer1) || (currentPlayer == 2 && !hasValidMoveForPlayer2) {
        CaptureRemainingSeeds(if currentPlayer == 1 then 2 else 1);
        var winner := if player1Seeds > player2Seeds then Player1 else if player1Seeds < player2Seeds then Player2 else Draw;
        return GameStatus(true, winner, NoMoves);
      }
      return GameStatus(false, Nobody, NotOver);
    }

    /** isWinningState: scans the opponent's parity row, colours in enum order. */
    method IsWinningState(player: int) returns (r: bool)
      requires Valid()
      ensures r == Rules.IsWinningState(State(), player)
    {
      var opponent := if player == 1 then 2 else 1;
      var row := PlayerHoles(opponent);
      var colors := [Red, Blue];
      HasMoveInRow(State(), opponent);
      for k := 0 to |row|
        invariant forall m :: 0 <= m < k ==> holes[row[m]].Size() == 0
      {
        for ci := 0 to |colors|
          invariant forall m :: 0 <= m < ci ==> holes[row[k]].Count(colors[m]) == 0
        {
          if HasSeeds(row[k], colors[ci]) {
            return false;
          }
        }
        assert holes[row[k]].Count(colors[0]) == 0 && holes[row[k]].Count(colors[1]) == 0;
      }
      return true;
    }

    /** sowSeeds: rejects an invalid move before changing anything; otherwise
        takes the colour, sows it, and captures for the current player. */
    method SowSeeds(hole: int, seedColor: Color) returns (error: Option<SowError>)
      requires Valid()
      modifies this, holes
      ensures Valid() && holes == old(holes)
      ensures Sow(old(State()), hole, seedColor).Rejected? ==>
        error == Some(Sow(old(State()), hole, seedColor).error) && State() == old(State())
      ensures Sow(old(State()), hole, seedColor).Sown? ==>
        error == None && State() == Sow(old(State()), hole, seedColor).sowing.after
    {
      if hole < 0 || hole >= TOTAL_HOLES {
        return Some(OutOfRange);
      }
      if holes[hole].Size() == 0 || !HasSeeds(hole, seedColor) {
        return Some(InvalidMove);
      }
      if hole % 2 == 1 && currentPlayer == 1 {
        return Some(NotOwnHole);
      } else if hole % 2 == 0 && currentPlayer == 2 {
        return Some(NotOwnHole);
      }
      var seedsToSow := HoleArray.TakeSeeds(holes, hole, seedColor);
      var lastHole := hole;
      if seedColor == Blue {
        lastHole := HoleArray.SowBlueSeeds(holes, hole, seedsToSow);
      } else {
        lastHole := HoleArray.SowRedSeeds(holes, hole, seedsToSow);
      }
      CaptureSeeds(currentPlayer, lastHole);
      return None;
    }

    /** captureSeeds: the backward capture from lastHole, credited to `player`. */
    method CaptureSeeds(player: int, lastHole: int)
      requires Valid() && 0 <= lastHole < TOTAL_HOLES
      modifies this, holes
      ensures Valid() && holes == old(holes)
      ensures var r := CaptureRun(old(State()).holes, lastHole);
        State() == Credit(old(State()).(holes := r.holes), player, r.seeds)
    {
      var capturedSeeds := HoleArray.CaptureSeeds(holes, lastHole);
      if player == 1 {
        player1Seeds := player1Seeds + capturedSeeds;
      } else {
        player2Seeds := player2Seeds + capturedSeeds;
      }
    }

    /** captureRemainingSeeds: Player 1 takes holes 0..7, anyone else holes 8..15. */
    method CaptureRemainingSeeds(player: int)
      requires Valid()
      modifies this, holes
      ensures Valid() && holes == old(holes)
      ensures State() == Sweep(old(State()), player)
    {
      ghost var before := State();
      assert before.holes == before.holes[..PLAYER_HOLES] + before.holes[PLAYER_HOLES..];
      if player == 1 {
        var swept := HoleArray.SweepHalf(holes, 0);
        assert before.holes[0..PLAYER_HOLES] == before.holes[..PLAYER_HOLES];
        player1Seeds := player1Seeds + swept;
      } else {
        var swept := HoleArray.SweepHalf(holes, PLAYER_HOLES);
        assert before.holes[PLAYER_HOLES..PLAYER_HOLES + PLAYER_HOLES] == before.holes[PLAYER_HOLES..];
        player2Seeds := player2Seeds + swept;
      }
      assert State().holes == Sweep(before, player).holes;
    }

    /** evaluateBoard */
    method EvaluateBoard() returns (v: int)
      requires Valid()
      ensures v == Evaluate(State())
    {
      var win1 := IsWinningState(1);
      if win1 {
        return MAX_VALUE;
      }
      var win2 := IsWinningState(2);
      if win2 {
        return MIN_VALUE;
      }
      return player1Seeds - player2Seeds;
    }

    /** copy: a new board with its own hole array holding the same holes, scores and
        player to move; the fresh array means later changes to either do not reach the other. */
    method Copy() returns (c: Board)
      requires Valid()
      ensures fresh(c) && fresh(c.holes) && c.Valid()
      ensures c.State() == State()
    {
      c := new Board(true);
      for i := 0 to TOTAL_HOLES
        invariant c.Valid() && fresh(c.holes)
        invariant forall k :: 0 <= k < i ==> c.holes[k] == holes[k]
      {
        c.holes[i] := holes[i];
      }
      c.player1Seeds := player1Seeds;
      c.player2Seeds := player2Seeds;
      c.currentPlayer := currentPlayer;
    }
  }
}
