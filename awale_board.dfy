/** common/AwaleBoard.java: the earlier board class. Sowing and capture are the
    same as in game/elements/Board.java; the end-of-game test judges "has a move"
    on the index halves 0..7 and 8..15 instead of the parity rows, keeps its
    verdict in the isGameOver field, and evaluateBoard is Player 2's lead. */
module Common {
  import opened Rules
  import HoleArray

  /** Player 1 can move if one of holes 0..7 is non-empty, Player 2 if one of 8..15 is. */
  predicate HalfHasMove(b: BoardState, player: int)
  {
    var low := if player == 1 then 0 else PLAYER_HOLES;
    exists i :: low <= i < low + PLAYER_HOLES && b.holes[i].Size() > 0
  }

  /** Some hole in lo..hi-1 holds a seed. */
  predicate AnySeeds(s: seq<Hole>, lo: int, hi: int)
    requires 0 <= lo <= hi <= |s|
  {
    exists k :: lo <= k < hi && s[k].Size() > 0
  }

  lemma AnySeedsExtend(s: seq<Hole>, lo: int, hi: int)
    requires 0 <= lo <= hi < |s|
    ensures AnySeeds(s, lo, hi + 1) == (AnySeeds(s, lo, hi) || s[hi].Size() > 0)
  {
  }

  predicate HalfStuck(b: BoardState)
  {
    (b.current == 1 && !HalfHasMove(b, 1)) || (b.current == 2 && !HalfHasMove(b, 2))
  }

  /** The boolean checkGameOver returns and the board after it. */
  datatype Verdict = Verdict(over: bool, after: BoardState)

  /** checkGameOver: the same rules, in the same order, as Board.checkGameStatus,
      with the index-half move test. */
  function GameOver(b: BoardState): (v: Verdict)
    ensures v.after.current == b.current
    ensures v.after != b ==> v.over && HalfStuck(b)
  {
    if b.p1 >= 33 || b.p2 >= 33 || (b.p1 == 32 && b.p2 == 32) || Sum(b.holes) < 8 then Verdict(true, b)
    else if HalfStuck(b) then Verdict(true, Sweep(b, Opponent(b.current)))
    else Verdict(false, b)
  }

  /** evaluateBoard: Player 2's captured seeds minus Player 1's. */
  function Lead2(b: BoardState): int
  {
    b.p2 - b.p1
  }

  /** Player 2's lead is the negation of Board.evaluateBoard away from its sentinels,
      and lies within -64..64 on a board of 64 seeds. */
  lemma LeadMirrorsEvaluate(b: BoardState)
    ensures HasMove(b, 1) && HasMove(b, 2) ==> Lead2(b) == -Evaluate(b)
    ensures Conserved(b) ==> -(TOTAL_SEEDS as int) <= Lead2(b) <= TOTAL_SEEDS
  {
  }

  /** Player 2's lead starts at 0, changes sign when the scores are swapped, and a
      legal move changes it by exactly the seeds the mover captures: up for Player 2,
      down for Player 1. */
  lemma LeadTracksCaptures(b: BoardState, hole: int, c: Color)
    requires Conserved(b) && Legal(b, hole, c)
    ensures Lead2(InitialBoard(b.current)) == 0
    ensures Lead2(b.(p1 := b.p2, p2 := b.p1)) == -Lead2(b)
    ensures var s := Sow(b, hole, c).sowing;
      Lead2(s.after) == if b.current == 1 then Lead2(b) - s.captured else Lead2(b) + s.captured
  {
    SowConserves(b, hole, c);
  }

  /** checkGameOver keeps the 64-seed total, never lowers a score, and changes the
      board only when the player to move is stuck on their index half. */
  lemma GameOverConserves(b: BoardState)
    requires Conserved(b)
    ensures var v := GameOver(b);
      && Conserved(v.after)
      && v.after.p1 >= b.p1 && v.after.p2 >= b.p2
      && v.after.current == b.current
      && (v.after != b ==> v.over && HalfStuck(b))
  {
    if HalfStuck(b) {
      SweepConserves(b, Opponent(b.current));
    }
  }

  /** The two boards' end-of-game tests agree on every rule before the move rule:
      both say over, with the board unchanged. */
  lemma GameOverAgreesBeforeMoveRule(b: BoardState)
    requires b.p1 >= 33 || b.p2 >= 33 || (b.p1 == 32 && b.p2 == 32) || Sum(b.holes) < 8
    ensures GameOver(b) == Verdict(true, b)
    ensures CheckStatus(b).status.isOver && CheckStatus(b).after == b
  {
  }

  /** The two move tests differ: Player 1 to move with seeds only in hole 8 has a
      parity-row move (hole 8 is even) but none in the index half 0..7. */
  lemma {:induction false} HalfTestDiffersFromParityTest()
    ensures var b := BoardState(seq(16, i => if i == 8 then Hole(8, 0) else EMPTY), 28, 28, 1);
      GameOver(b) != Verdict(CheckStatus(b).status.isOver, CheckStatus(b).after)
  {
    var b := BoardState(seq(16, i => if i == 8 then Hole(8, 0) else EMPTY), 28, 28, 1);
    var low, high := b.holes[..8], b.holes[8..];
    assert low == Zeros(8);
    assert high == [Hole(8, 0)] + Zeros(7);
    assert b.holes == low + high;
    SumAppend(low, high);
    SumAppend([Hole(8, 0)], Zeros(7));
    SumZeros(8);
    SumZeros(7);
    SumSingle(Hole(8, 0));
    assert Sum(b.holes) == 8;
    assert HasMove(b, 1) by {
      assert b.holes[8].Size() > 0 && 8 % 2 == Parity(1);
    }
    assert !HalfHasMove(b, 1);
    assert !CheckStatus(b).status.isOver;
    assert GameOver(b).over;
  }

  class AwaleBoard {
    var board: array<Hole>
    var player1Seeds: int
    var player2Seeds: int
    var currentPlayer: int
    var isGameOver: bool

    ghost predicate Valid()
      reads this
    {
      board.Length == TOTAL_HOLES
    }

    /** The board as a value (isGameOver aside). */
    function State(): BoardState
      reads this, board
      requires Valid()
    {
      BoardState(board[..], player1Seeds, player2Seeds, currentPlayer)
    }

    /** new AwaleBoard(): the same initial position as Board, not over. */
    constructor(coin: bool)
      ensures Valid() && fresh(board) && !isGameOver
      ensures State() == InitialBoard(if coin then 1 else 2)
    {
      var a := new Hole[TOTAL_HOLES];
      for i := 0 to TOTAL_HOLES
        invariant forall k :: 0 <= k < i ==> a[k] == Hole(INITIAL_SEEDS_PER_COLOR, INITIAL_SEEDS_PER_COLOR)
      {
        a[i] := EMPTY;
        for j := 0 to INITIAL_SEEDS_PER_COLOR
          invariant a[i] == Hole(j, j)
          invariant forall k :: 0 <= k < i ==> a[k] == Hole(INITIAL_SEEDS_PER_COLOR, INITIAL_SEEDS_PER_COLOR)
        {
          a[i] := a[i].Plus(Blue, 1);
          a[i] := a[i].Plus(Red, 1);
        }
      }
      board := a;
      isGameOver := false;
      player1Seeds := 0;
      player2Seeds := 0;
      currentPlayer := if coin then 1 else 2;
    }

    /** hasSeeds */
    function HasSeeds(hole: int, c: Color): (r: bool)
      reads this, board
      requires Valid() && 0 <= hole < TOTAL_HOLES
      ensures r <==> Rules.HasSeeds(State(), hole, c)
    {
      board[hole].Count(c) > 0
    }

    /** switchPlayer */
    method SwitchPlayer()
      requires Valid()
      modifies this
      ensures Valid() && board == old(board) && isGameOver == old(isGameOver)
      ensures State() == Rules.SwitchPlayer(old(State()))
    {
      currentPlayer := if currentPlayer == 1 then 2 else 1;
    }

    /** checkGameOver: sets isGameOver to the verdict it returns in every branch. */
    method CheckGameOver() returns (over: bool)
      requires Valid()
      modifies this, board
      ensures Valid() && board == old(board)
      ensures over == GameOver(old(State())).over && isGameOver == over
      ensures State() == GameOver(old(State())).after
    {
      var totalSeedsOnBoard := SeedsOnBoard();
      if player1Seeds >= 33 {
        isGameOver := true;
        return true;
      }
      if player2Seeds >= 33 {
        isGameOver := true;
        return true;
      }
      if player1Seeds == 32 && player2Seeds == 32 {
        isGameOver := true;
        return true;
      }
      if totalSeedsOnBoard < 8 {
        isGameOver := true;
        return true;
      }
      var hasValidMoveForPlayer1, hasValidMoveForPlayer2 := HalfMoves();
      if (currentPlayer == 1 && !hasValidMoveForPlayer1) || (currentPlayer == 2 && !hasValidMoveForPlayer2) {
        isGameOver := true;
        CaptureRemainingSeeds(if currentPlayer == 1 then 2 else 1);
        return true;
      }
      isGameOver := false;
      return false;
    }

    /** checkGameOver's first loop: the seeds left on the board. */
    method SeedsOnBoard() returns (total: nat)
      requires Valid()
      ensures total == Sum(State().holes)
    {
      total := 0;
      for i := 0 to TOTAL_HOLES
        invariant total == Sum(board[..i])
      {
        assert board[..i + 1][..i] == board[..i];
        total := total + board[i].Size();
      }
      assert board[..TOTAL_HOLES] == board[..];
    }

    /** checkGameOver's second loop: whether each index half holds a seed. */
    method HalfMoves() returns (hasValidMoveForPlayer1: bool, hasValidMoveForPlayer2: bool)
      requires Valid()
      ensures hasValidMoveForPlayer1 == HalfHasMove(State(), 1)
      ensures hasValidMoveForPlayer2 == HalfHasMove(State(), 2)
    {
      hasValidMoveForPlayer1 := false;
      hasValidMoveForPlayer2 := false;
      ghost var s := board[..];
      for i := 0 to PLAYER_HOLES
        invariant hasValidMoveForPlayer1 == AnySeeds(s, 0, i)
        invariant hasValidMoveForPlayer2 == AnySeeds(s, PLAYER_HOLES, PLAYER_HOLES + i)
      {
        AnySeedsExtend(s, 0, i);
        AnySeedsExtend(s, PLAYER_HOLES, PLAYER_HOLES + i);
        if board[i].Size() > 0 {
          hasValidMoveForPlayer1 := true;
        }
        if board[i + PLAYER_HOLES].Size() > 0 {
          hasValidMoveForPlayer2 := true;
        }
      }
    }

    /** sowSeeds: the same validation, sowing and capture as Board.sowSeeds. */
    method SowSeeds(hole: int, seedColor: Color) returns (error: Option<SowError>)
      requires Valid()
      modifies this, board
      ensures Valid() && board == old(board) && isGameOver == old(isGameOver)
      ensures Sow(old(State()), hole, seedColor).Rejected? ==>
        error == Some(Sow(old(State()), hole, seedColor).error) && State() == old(State())
      ensures Sow(old(State()), hole, seedColor).Sown? ==>
        error == None && State() == Sow(old(State()), hole, seedColor).sowing.after
    {
      if hole < 0 || hole >= TOTAL_HOLES {
        return Some(OutOfRange);
      }
      if board[hole].Size() == 0 || !HasSeeds(hole, seedColor) {
        return Some(InvalidMove);
      }
      if hole % 2 == 1 && currentPlayer == 1 {
        return Some(NotOwnHole);
      } else if hole % 2 == 0 && currentPlayer == 2 {
        return Some(NotOwnHole);
      }
      var seedsToSow := HoleArray.TakeSeeds(board, hole, seedColor);
      var lastHole := hole;
      if seedColor == Blue {
        lastHole := HoleArray.SowBlueSeeds(board, hole, seedsToSow);
      } else {
        lastHole := HoleArray.SowRedSeeds(board, hole, seedsToSow);
      }
      CaptureSeeds(currentPlayer, lastHole);
      return None;
    }

    /** captureSeeds */
    method CaptureSeeds(player: int, lastHole: int)
      requires Valid() && 0 <= lastHole < TOTAL_HOLES
      modifies this, board
      ensures Valid() && board == old(board) && isGameOver == old(isGameOver)
      ensures var r := CaptureRun(old(State()).holes, lastHole);
        State() == Credit(old(State()).(holes := r.holes), player, r.seeds)
    {
      var capturedSeeds := HoleArray.CaptureSeeds(board, lastHole);
      if player == 1 {
        player1Seeds := player1Seeds + capturedSeeds;
      } else {
        player2Seeds := player2Seeds + capturedSeeds;
      }
    }

    /** captureRemainingSeeds */
    method CaptureRemainingSeeds(player: int)
      requires Valid()
      modifies this, board
      ensures Valid() && board == old(board) && isGameOver == old(isGameOver)
      ensures State() == Sweep(old(State()), player)
    {
      ghost var before := State();
      assert before.holes == before.holes[..PLAYER_HOLES] + before.holes[PLAYER_HOLES..];
      if player == 1 {
        var swept := HoleArray.SweepHalf(board, 0);
        assert before.holes[0..PLAYER_HOLES] == before.holes[..PLAYER_HOLES];
        player1Seeds := player1Seeds + swept;
      } else {
        var swept := HoleArray.SweepHalf(board, PLAYER_HOLES);
        assert before.holes[PLAYER_HOLES..PLAYER_HOLES + PLAYER_HOLES] == before.holes[PLAYER_HOLES..];
        player2Seeds := player2Seeds + swept;
      }
      assert State().holes == Sweep(before, player).holes;
    }

    /** evaluateBoard */
    method EvaluateBoard() returns (v: int)
      requires Valid()
      ensures v == Lead2(State())
    {
      return player2Seeds - player1Seeds;
    }
  }
}
