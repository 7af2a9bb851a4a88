/** AIManager.java (package fr.ai.game.programming): the first search, for Player 2
    only, on the integer array of the board. Its halves are split at NUM_HOLES, a
    constant the repository does not define; it is the parameter `half` here. */
module FirstAI {
  import opened Rules
  import opened IntBoard

  const MAX_DEPTH: nat := 8

  /** The search of this file: evaluateBoard(int[]) at the leaves, and a finished game
      (isGameOver(int[])) ends the search. */
  function Config(half: int): IntSearch
  {
    IntSearch(half, None, true)
  }

  /** findBestMove as written: holes 0..half-1 holding more than one seed, each searched
      with Player 1 to play; a strictly greater value replaces the move, from
      Integer.MIN_VALUE and move -1. */
  function BestMove(s: seq<int>, half: int): int
    requires IsRing(s) && 0 <= half <= TOTAL_HOLES
  {
    RootFold(Config(half), s, MAX_DEPTH, false, true, false, 0, half, Pick(-1, MIN_VALUE)).move
  }

  /** The value findBestMove gives hole j. */
  function MoveValue(s: seq<int>, half: int, j: int): int
    requires IsRing(s) && 0 <= half <= TOTAL_HOLES && 0 <= j < TOTAL_HOLES
  {
    RootValue(Config(half), s, MAX_DEPTH, false, j)
  }

  /** As written, findBestMove returns -1 exactly when no candidate's value exceeds
      Integer.MIN_VALUE, not when there is no candidate; otherwise it returns a
      candidate of highest value, the first of equals. */
  lemma BestMoveAsWritten(s: seq<int>, half: int)
    requires IsRing(s) && 0 <= half <= TOTAL_HOLES
    ensures BestMove(s, half) == -1 <==>
      forall j :: Candidate(s, 0, half, j) ==> MoveValue(s, half, j) <= MIN_VALUE
    ensures BestMove(s, half) != -1 ==>
      && Candidate(s, 0, half, BestMove(s, half))
      && (forall j :: Candidate(s, 0, half, j) ==> MoveValue(s, half, j) <= MoveValue(s, half, BestMove(s, half)))
      && (forall j :: Candidate(s, 0, BestMove(s, half), j) ==> MoveValue(s, half, j) < MoveValue(s, half, BestMove(s, half)))
  {
    RootFoldBest(Config(half), s, MAX_DEPTH, false, true, 0, half, Pick(-1, MIN_VALUE));
  }

  /** The board of the counterexample: two seeds in hole 0 and in hole 8, one in each
      of holes 9..15. */
  function Witness(): seq<int>
  {
    [2, 0, 0, 0, 0, 0, 0, 0, 2, 1, 1, 1, 1, 1, 1, 1]
  }

  /** A board equal to the witness, described hole by hole. */
  predicate WitnessShape(s: seq<int>)
  {
    && IsRing(s) && s[0] == 2 && s[8] == 2
    && (forall j :: 0 < j < PLAYER_HOLES ==> s[j] == 0)
    && (forall j :: PLAYER_HOLES < j < TOTAL_HOLES ==> s[j] == 1)
  }

  lemma WitnessHasShape(s: seq<int>)
    requires s == Witness()
    ensures WitnessShape(s)
  {
  }

  /** Player 2's move from hole 0 of the witness: no capture. */
  lemma {:induction false} WitnessFirstMove()
    ensures IntSow(Witness(), 0, 8) == [0, 1, 1, 0, 0, 0, 0, 0, 2, 1, 1, 1, 1, 1, 1, 1]
  {
    var t0 := [0, 0, 0, 0, 0, 0, 0, 0, 2, 1, 1, 1, 1, 1, 1, 1];
    var t1 := [0, 1, 1, 0, 0, 0, 0, 0, 2, 1, 1, 1, 1, 1, 1, 1];
    assert Witness()[0 := 0] == t0;
    assert Drop(t0, 0, 2) == Drop(t0[1 := 1], 1, 1) == Drop(t0[1 := 1][2 := 1], 2, 0);
    assert t0[1 := 1][2 := 1] == t1;
    assert DropEnd(0, 2) == 2;
  }

  /** Player 1's only reply, from hole 8: it ends in hole 10 and captures 10 and 9. */
  lemma {:induction false} WitnessReply()
    ensures IntSow([0, 1, 1, 0, 0, 0, 0, 0, 2, 1, 1, 1, 1, 1, 1, 1], 8, 8)
      == [0, 1, 1, 0, 0, 0, 0, 0, 0, 0, 0, 1, 1, 1, 1, 1]
  {
    var t1 := [0, 1, 1, 0, 0, 0, 0, 0, 2, 1, 1, 1, 1, 1, 1, 1];
    var u0 := [0, 1, 1, 0, 0, 0, 0, 0, 0, 1, 1, 1, 1, 1, 1, 1];
    var u1 := [0, 1, 1, 0, 0, 0, 0, 0, 0, 2, 2, 1, 1, 1, 1, 1];
    var u2 := [0, 1, 1, 0, 0, 0, 0, 0, 0, 0, 0, 1, 1, 1, 1, 1];
    assert t1[8 := 0] == u0;
    assert Drop(u0, 8, 2) == Drop(u0[9 := 2], 9, 1) == Drop(u0[9 := 2][10 := 2], 10, 0);
    assert u0[9 := 2][10 := 2] == u1;
    assert DropEnd(8, 2) == 10;
    assert CaptureDown(u1, 10, 8, 1) == CaptureDown(u1[10 := 0], 9, 8, 1);
    assert CaptureDown(u1[10 := 0], 9, 8, 1) == CaptureDown(u1[10 := 0][9 := 0], 8, 8, 1);
    assert u1[10 := 0][9 := 0] == u2;
  }

  /** After the reply Player 2 has no hole of more than one seed: MIN_VALUE. */
  lemma {:induction false} WitnessReplyValue()
    ensures AlphaBeta(Config(8), [0, 1, 1, 0, 0, 0, 0, 0, 0, 0, 0, 1, 1, 1, 1, 1], 7, MIN_VALUE, MAX_VALUE, true) == MIN_VALUE
  {
    var u2 := [0, 1, 1, 0, 0, 0, 0, 0, 0, 0, 0, 1, 1, 1, 1, 1];
    assert !IntGameOver(u2, 8) by {
      assert u2[11] > 0 && u2[1] > 0;
    }
    NoMoveFold(Config(8), u2, 7, true, 0, MIN_VALUE, MAX_VALUE, MIN_VALUE);
  }

  /** Player 1 to play after hole 0: the reply from hole 8 is worth MIN_VALUE, so the
      minimizing node cuts off at MIN_VALUE. */
  lemma {:induction false} WitnessFirstMoveValue()
    ensures AlphaBeta(Config(8), [0, 1, 1, 0, 0, 0, 0, 0, 2, 1, 1, 1, 1, 1, 1, 1], 8, MIN_VALUE, MAX_VALUE, false) == MIN_VALUE
  {
    var t1 := [0, 1, 1, 0, 0, 0, 0, 0, 2, 1, 1, 1, 1, 1, 1, 1];
    WitnessReply();
    WitnessReplyValue();
    assert !IntGameOver(t1, 8) by {
      assert t1[8] > 0 && t1[1] > 0;
    }
    assert Fold(Config(8), t1, 8, false, 8, MIN_VALUE, MAX_VALUE, MAX_VALUE) == MIN_VALUE;
  }

  /** So hole 0 of the witness is worth MIN_VALUE. */
  lemma WitnessMoveValue(s: seq<int>, half: int)
    requires WitnessShape(s) && half == 8
    ensures MoveValue(s, half, 0) == MIN_VALUE
  {
    assert s == Witness();
    WitnessFirstMove();
    WitnessFirstMoveValue();
  }

  /** With half 8, hole 0 is a move, yet findBestMove returns -1: after 0 and Player 1's
      only reply 8 (which captures holes 10 and 9), Player 2 has no hole of more than
      one seed, so the reply is worth Integer.MIN_VALUE, and so is hole 0, which the
      strict comparison with MIN_VALUE then never takes. */
  lemma {:induction false} BestMoveMissesOnlyMove(s: seq<int>, half: int)
    requires WitnessShape(s) && half == 8
    ensures Candidate(s, 0, half, 0) && BestMove(s, half) == -1
  {
    WitnessMoveValue(s, half);
    OnlyCandidateAtMin(s, half, 0);
  }

  /** A board whose only candidate is worth MIN_VALUE gets -1. */
  lemma OnlyCandidateAtMin(s: seq<int>, half: int, j0: int)
    requires IsRing(s) && 0 <= half <= TOTAL_HOLES && 0 <= j0 < half
    requires forall j :: 0 <= j < half && j != j0 ==> s[j] <= 1
    requires MoveValue(s, half, j0) <= MIN_VALUE
    ensures BestMove(s, half) == -1
  {
    BestMoveAsWritten(s, half);
  }

  /** The evidently intended findBestMove: the first candidate is taken whatever its
      value (bestMove == -1 || moveValue > bestValue). */
  function BestMoveFixed(s: seq<int>, half: int): int
    requires IsRing(s) && 0 <= half <= TOTAL_HOLES
  {
    RootFold(Config(half), s, MAX_DEPTH, false, true, true, 0, half, Pick(-1, MIN_VALUE)).move
  }

  /** The corrected findBestMove returns -1 exactly when no hole of 0..half-1 holds more
      than one seed, and otherwise a candidate of highest value, the first of equals. */
  lemma BestMoveFixedSpec(s: seq<int>, half: int)
    requires IsRing(s) && 0 <= half <= TOTAL_HOLES
    ensures BestMoveFixed(s, half) == -1 <==> forall j :: 0 <= j < half ==> s[j] <= 1
    ensures BestMoveFixed(s, half) != -1 ==>
      && Candidate(s, 0, half, BestMoveFixed(s, half))
      && (forall j :: Candidate(s, 0, half, j) ==> MoveValue(s, half, j) <= MoveValue(s, half, BestMoveFixed(s, half)))
      && (forall j :: Candidate(s, 0, BestMoveFixed(s, half), j) ==> MoveValue(s, half, j) < MoveValue(s, half, BestMoveFixed(s, half)))
  {
    RootFoldFirstTakes(Config(half), s, MAX_DEPTH, false, true, 0, half, Pick(-1, MIN_VALUE));
    if BestMoveFixed(s, half) == -1 {
      forall j | 0 <= j < half
        ensures s[j] <= 1
      {
        assert !Candidate(s, 0, half, j);
      }
    }
  }

  /** findBestMove as written. */
  method FindBestMove(board: array<int>, half: int) returns (bestMove: int)
    requires board.Length == TOTAL_HOLES && 0 <= half <= TOTAL_HOLES
    ensures bestMove == BestMove(board[..], half)
  {
    bestMove := -1;
    var bestValue := MIN_VALUE;
    ghost var s := board[..];
    ghost var target := RootFold(Config(half), s, MAX_DEPTH, false, true, false, 0, half, Pick(-1, MIN_VALUE));
    for i := 0 to half
      invariant board[..] == s
      invariant RootFold(Config(half), s, MAX_DEPTH, false, true, false, i, half, Pick(bestMove, bestValue)) == target
    {
      if board[i] > 1 {
        var newBoard := Clone(board);
        MakeMove(newBoard, i, half);
        var moveValue := AlphaBeta(Config(half), newBoard[..], MAX_DEPTH, MIN_VALUE, MAX_VALUE, false);
        RootValuesAt(Config(half), s, MAX_DEPTH, false, TOTAL_HOLES, i);
        if moveValue > bestValue {
          bestValue := moveValue;
          bestMove := i;
        }
      }
    }
  }

  /** findBestMove corrected: the first candidate is always taken. */
  method FindBestMoveFixed(board: array<int>, half: int) returns (bestMove: int)
    requires board.Length == TOTAL_HOLES && 0 <= half <= TOTAL_HOLES
    ensures bestMove == BestMoveFixed(board[..], half)
  {
    bestMove := -1;
    var bestValue := MIN_VALUE;
    ghost var s := board[..];
    ghost var target := RootFold(Config(half), s, MAX_DEPTH, false, true, true, 0, half, Pick(-1, MIN_VALUE));
    for i := 0 to half
      invariant board[..] == s
      invariant RootFold(Config(half), s, MAX_DEPTH, false, true, true, i, half, Pick(bestMove, bestValue)) == target
    {
      if board[i] > 1 {
        var newBoard := Clone(board);
        MakeMove(newBoard, i, half);
        var moveValue := AlphaBeta(Config(half), newBoard[..], MAX_DEPTH, MIN_VALUE, MAX_VALUE, false);
        RootValuesAt(Config(half), s, MAX_DEPTH, false, TOTAL_HOLES, i);
        if bestMove == -1 || moveValue > bestValue {
          bestValue := moveValue;
          bestMove := i;
        }
      }
    }
  }

  /** evaluateBoard(int[]): Player 2's holes 0..half-1 minus Player 1's half..15. */
  method EvaluateBoard(board: array<int>, half: int) returns (v: int)
    requires board.Length == TOTAL_HOLES && 0 <= half <= TOTAL_HOLES
    ensures v == IntLead(board[..], half)
  {
    var player1Seeds := 0;
    var player2Seeds := 0;
    for i := 0 to half
      invariant player2Seeds == Total(board[..i])
    {
      assert board[..i + 1][..i] == board[..i];
      player2Seeds := player2Seeds + board[i];
    }
    for i := half to TOTAL_HOLES
      invariant player1Seeds == Total(board[half..i])
    {
      assert board[half..i + 1][..i - half] == board[half..i];
      player1Seeds := player1Seeds + board[i];
    }
    assert board[..][..half] == board[..half];
    assert board[..][half..] == board[half..TOTAL_HOLES];
    return player2Seeds - player1Seeds;
  }

  /** isGameOver(int[]): true unless both halves hold a positive count. */
  method IsGameOver(board: array<int>, half: int) returns (over: bool)
    requires board.Length == TOTAL_HOLES && 0 <= half <= TOTAL_HOLES
    ensures over == IntGameOver(board[..], half)
  {
    var player1HasSeeds := false;
    var player2HasSeeds := false;
    var i := 0;
    while i < half
      invariant 0 <= i <= half && !player2HasSeeds
      invariant forall k :: 0 <= k < i ==> board[k] <= 0
    {
      if board[i] > 0 {
        player2HasSeeds := true;
        break;
      }
      i := i + 1;
    }
    i := half;
    while i < TOTAL_HOLES
      invariant half <= i <= TOTAL_HOLES && !player1HasSeeds
      invariant forall k :: half <= k < i ==> board[k] <= 0
    {
      if board[i] > 0 {
        player1HasSeeds := true;
        break;
      }
      i := i + 1;
    }
    return !(player1HasSeeds && player2HasSeeds);
  }
}
