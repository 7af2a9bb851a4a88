/** common/AIManager.java: minimax with alpha-beta on the integer array the board
    hands out, for either player, with a random fallback. Every simulation runs on a
    clone of that array, and every leaf is the live AwaleBoard's evaluateBoard(). */
module CommonAI {
  import opened Rules
  import opened IntBoard
  import Common

  const MAX_DEPTH: nat := 20

  /** The search of this file: halves of PLAYER_HOLES, the live board's lead at every
      leaf, no end-of-game test. */
  function Config(lead: int): IntSearch
  {
    IntSearch(PLAYER_HOLES, Some(lead), false)
  }

  /** findRandomMove's range: holes 0..7 for Player 2, 8..15 for anyone else. */
  function RandomStart(player: int): int
  {
    if player == 2 then 0 else PLAYER_HOLES
  }

  /** findRandomMove: each draw d in 0..7 names hole start + d; the first such hole
      holding more than one seed is returned. None: the Java loop would go on drawing. */
  function RandomHole(player: int, s: seq<int>, draws: seq<int>): Option<int>
    requires IsRing(s)
    decreases |draws|
  {
    if draws == [] then None
    else
      var d := draws[0];
      if 0 <= d < PLAYER_HOLES && s[RandomStart(player) + d] > 1 then Some(RandomStart(player) + d)
      else RandomHole(player, s, draws[1..])
  }

  /** The random fallback returns a hole of the range holding more than one seed, and
      finds one whenever some draw names such a hole. */
  lemma {:induction false} RandomHoleValid(player: int, s: seq<int>, draws: seq<int>)
    requires IsRing(s)
    ensures RandomHole(player, s, draws).Some? ==>
      var h := RandomHole(player, s, draws).value;
      RandomStart(player) <= h < RandomStart(player) + PLAYER_HOLES && s[h] > 1
    ensures RandomHole(player, s, draws).None? <==>
      forall k :: 0 <= k < |draws| && 0 <= draws[k] < PLAYER_HOLES ==> s[RandomStart(player) + draws[k]] <= 1
    decreases |draws|
  {
    if draws != [] {
      RandomHoleValid(player, s, draws[1..]);
      if RandomHole(player, s, draws).None? {
        forall k | 0 <= k < |draws| && 0 <= draws[k] < PLAYER_HOLES
          ensures s[RandomStart(player) + draws[k]] <= 1
        {
          if k > 0 {
            assert draws[1..][k - 1] == draws[k];
          }
        }
      } else if !(0 <= draws[0] < PLAYER_HOLES && s[RandomStart(player) + draws[0]] > 1) {
        var k :| 0 <= k < |draws[1..]| && 0 <= draws[1..][k] < PLAYER_HOLES && s[RandomStart(player) + draws[1..][k]] > 1;
        assert draws[k + 1] == draws[1..][k];
      }
    }
  }

  /** findBestMove's range: holes 8..15 for Player 1, 0..7 for anyone else. */
  function BestStart(player: int): int
  {
    if player == 1 then PLAYER_HOLES else 0
  }

  /** findBestMove's loop: Player 2 keeps a strictly greater value from MIN_VALUE, anyone
      else a strictly smaller one from MAX_VALUE; each move is searched at depth 20
      with the opponent to play (maximizing after Player 1's move). */
  function RootPick(player: int, s: seq<int>, lead: int): Pick
    requires IsRing(s)
  {
    RootFold(Config(lead), s, MAX_DEPTH, player == 1, player == 2, false,
      BestStart(player), BestStart(player) + PLAYER_HOLES,
      Pick(-1, if player == 2 then MIN_VALUE else MAX_VALUE))
  }

  /** findBestMove: the root's move, or the random fallback when it kept -1. */
  function BestMove(player: int, s: seq<int>, lead: int, draws: seq<int>): Option<int>
    requires IsRing(s)
  {
    var r := RootPick(player, s, lead);
    if r.move == -1 then RandomHole(player, s, draws) else Some(r.move)
  }

  /** For Player 1 or 2, findBestMove returns a hole of the player's half holding more
      than one seed. */
  lemma BestMoveValid(player: int, s: seq<int>, lead: int, draws: seq<int>)
    requires IsRing(s) && (player == 1 || player == 2)
    ensures BestMove(player, s, lead, draws).Some? ==>
      var h := BestMove(player, s, lead, draws).value;
      (if player == 1 then PLAYER_HOLES <= h < TOTAL_HOLES else 0 <= h < PLAYER_HOLES) && s[h] > 1
  {
    RootPickCandidate(player, s, lead);
    RandomHoleValid(player, s, draws);
  }

  /** findBestMove has a move whenever the random draws would find one. */
  lemma BestMoveFound(player: int, s: seq<int>, lead: int, draws: seq<int>)
    requires IsRing(s)
    ensures RandomHole(player, s, draws).Some? ==> BestMove(player, s, lead, draws).Some?
  {
  }

  /** The root keeps -1 or picks a hole of the range holding more than one seed. */
  lemma RootPickCandidate(player: int, s: seq<int>, lead: int)
    requires IsRing(s)
    ensures var r := RootPick(player, s, lead);
      r.move == -1 || Candidate(s, BestStart(player), BestStart(player) + PLAYER_HOLES, r.move)
  {
    var p := Pick(-1, if player == 2 then MIN_VALUE else MAX_VALUE);
    RootFoldCandidate(Config(lead), s, MAX_DEPTH, player == 1, player == 2, false, BestStart(player), BestStart(player) + PLAYER_HOLES, p);
  }

  class AIManager {
    const awaleBoard: Common.AwaleBoard

    constructor(awaleBoard: Common.AwaleBoard)
      ensures this.awaleBoard == awaleBoard
    {
      this.awaleBoard := awaleBoard;
    }

    /** findRandomMove over the draws of Math.random. */
    method FindRandomMove(player: int, board: array<int>, draws: seq<int>) returns (move: Option<int>)
      requires board.Length == TOTAL_HOLES
      ensures move == RandomHole(player, board[..], draws)
    {
      var startHole := if player == 2 then 0 else PLAYER_HOLES;
      var endHole := if player == 2 then PLAYER_HOLES else TOTAL_HOLES;
      var i := 0;
      while i < |draws|
        invariant 0 <= i <= |draws|
        invariant RandomHole(player, board[..], draws) == RandomHole(player, board[..], draws[i..])
      {
        assert draws[i..][1..] == draws[i + 1..];
        var d := draws[i];
        if 0 <= d < endHole - startHole {
          var randomHole := startHole + d;
          if board[randomHole] > 1 {
            return Some(randomHole);
          }
        }
        i := i + 1;
      }
      return None;
    }

    /** findBestMove: every hole of the range holding more than one seed is played on a
        clone and searched; the array itself is left as it was. */
    method FindBestMove(player: int, board: array<int>, draws: seq<int>) returns (move: Option<int>)
      requires awaleBoard.Valid() && board.Length == TOTAL_HOLES
      ensures move == BestMove(player, board[..], Common.Lead2(awaleBoard.State()), draws)
    {
      var lead := awaleBoard.EvaluateBoard();
      var bestMove := -1;
      var bestValue := if player == 2 then MIN_VALUE else MAX_VALUE;
      var startHole := if player == 1 then PLAYER_HOLES else 0;
      var endHole := if player == 1 then TOTAL_HOLES else PLAYER_HOLES;
      ghost var s := board[..];
      ghost var target := RootPick(player, s, lead);
      for i := startHole to endHole
        invariant board[..] == s
        invariant RootFold(Config(lead), s, MAX_DEPTH, player == 1, player == 2, false, i, endHole, Pick(bestMove, bestValue)) == target
      {
        if board[i] > 1 {
          var newBoard := Clone(board);
          MakeMove(newBoard, i, PLAYER_HOLES);
          var moveValue := AlphaBeta(Config(lead), newBoard[..], MAX_DEPTH, MIN_VALUE, MAX_VALUE, player == 1);
          RootValuesAt(Config(lead), s, MAX_DEPTH, player == 1, TOTAL_HOLES, i);
          if player == 2 {
            if moveValue > bestValue {
              bestValue := moveValue;
              bestMove := i;
            }
          } else {
            if moveValue < bestValue {
              bestValue := moveValue;
              bestMove := i;
            }
          }
        }
      }
      if bestMove == -1 {
        move := FindRandomMove(player, board, draws);
      } else {
        move := Some(bestMove);
      }
    }
  }
}
