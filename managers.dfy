/** The search managers of game/player/AIManager{Ultimate,New,Test,Alex,Nolan}.java
    as one class parameterised by the variant. The class holds what the Java classes
    keep in fields (currentDepth; the heuristic Ultimate calls); every simulation
    runs on Board.Copy(), so the caller's board is outside every modifies clause.
    The wall clock is the `ticks` oracle and Math.random the `draws` oracle. */
module Managers {
  import opened Rules
  import opened Search
  import opened Elements

  class AIManager {
    const kind: Kind
    /** evaluateBoardHeuristicUltimate, which the repository does not show. */
    const heuristic: BoardState -> int
    var currentDepth: nat

    /** A new manager starts at INITIAL_DEPTH. */
    constructor(kind: Kind, heuristic: BoardState -> int)
      ensures this.kind == kind && this.heuristic == heuristic
      ensures currentDepth == INITIAL_DEPTH
    {
      this.kind := kind;
      this.heuristic := heuristic;
      currentDepth := INITIAL_DEPTH;
    }

    /** optimizeDepth, with each variant's own table. */
    method OptimizeDepth(amountPossibleMoves: int)
      modifies this
      ensures currentDepth == DepthFor(kind, amountPossibleMoves)
    {
      var n := amountPossibleMoves;
      match kind
      case Ultimate =>
        if n > 8 { currentDepth := INITIAL_DEPTH; }
        else if n > 6 { currentDepth := INITIAL_DEPTH + 2; }
        else if n > 4 { currentDepth := INITIAL_DEPTH + 3; }
        else if n > 3 { currentDepth := INITIAL_DEPTH + 4; }
        else if n > 2 { currentDepth := INITIAL_DEPTH + 5; }
        else { currentDepth := INITIAL_DEPTH + 6; }
      case New =>
        if n > 8 { currentDepth := INITIAL_DEPTH; }
        else if n > 4 { currentDepth := INITIAL_DEPTH + 5; }
        else if n > 3 { currentDepth := INITIAL_DEPTH + 6; }
        else if n > 2 { currentDepth := INITIAL_DEPTH + 7; }
        else { currentDepth := INITIAL_DEPTH + 8; }
      case Test =>
        if n > 8 { currentDepth := INITIAL_DEPTH; }
        else if n > 4 { currentDepth := INITIAL_DEPTH + 3; }
        else if n > 3 { currentDepth := INITIAL_DEPTH + 4; }
        else if n > 2 { currentDepth := INITIAL_DEPTH + 5; }
        else { currentDepth := INITIAL_DEPTH + 6; }
      case Alex =>
        if n > 8 { currentDepth := INITIAL_DEPTH; }
        else if n > 4 { currentDepth := INITIAL_DEPTH + 5; }
        else if n > 3 { currentDepth := INITIAL_DEPTH + 10; }
        else if n > 2 { currentDepth := INITIAL_DEPTH + 15; }
        else { currentDepth := INITIAL_DEPTH + 20; }
      case Nolan =>
        if n > 8 { currentDepth := INITIAL_DEPTH; }
        else if n > 4 { currentDepth := INITIAL_DEPTH + 1; }
        else if n > 2 { currentDepth := INITIAL_DEPTH + 3; }
        else { currentDepth := INITIAL_DEPTH + 4; }
    }

    /** getAllPossibleMoves(player, board): holes of the parity row, colours in enum
        order, each pair whose hole holds the colour; then List.sort with the
        variant's comparator. `live` is the manager's own board (Alex's quality). */
    method GetAllPossibleMoves(player: int, board: Board, live: BoardState) returns (moves: seq<Move>)
      requires board.Valid()
      ensures moves == PossibleMoves(kind, live, board.State(), player)
    {
      ghost var b := board.State();
      var row := PlayerHoles(player);
      var colors := [Red, Blue];
      moves := [];
      for k := 0 to |row|
        invariant moves == RowMoves(b, row, k)
      {
        ghost var before := moves;
        for ci := 0 to |colors|
          invariant moves == before
            + (if ci >= 1 && b.holes[row[k]].Count(Red) > 0 then [Move(row[k], Red)] else [])
            + (if ci >= 2 && b.holes[row[k]].Count(Blue) > 0 then [Move(row[k], Blue)] else [])
        {
          if board.HasSeeds(row[k], colors[ci]) {
            moves := moves + [Move(row[k], colors[ci])];
          }
        }
      }
      moves := SortMoves(OrderFor(kind, live, board.State(), player), moves);
    }

    /** findRandomMove: draws a hole of the current player's row until one yields a
        move; None when the draws run out. */
    method FindRandomMove(board: Board, draws: seq<Draw>) returns (m: Option<Move>)
      requires board.Valid()
      ensures m == RandomMove(kind, board.State(), draws)
    {
      ghost var b := board.State();
      var playerHoles := PlayerHoles(board.currentPlayer);
      var i := 0;
      while i < |draws|
        invariant 0 <= i <= |draws|
        invariant RandomMove(kind, b, draws) == RandomMove(kind, b, draws[i..])
      {
        assert draws[i..][1..] == draws[i + 1..];
        var d := draws[i];
        if d.index < PLAYER_HOLES {
          var randomHole := playerHoles[d.index];
          var blueCount := board.holes[randomHole].Count(Blue);
          var redCount := board.holes[randomHole].Count(Red);
          if kind == Nolan {
            if board.holes[randomHole].Size() > 0 {
              var seedColor := if board.holes[randomHole].Count(d.seed) > 0 then d.seed
                else if d.seed == Red then Blue else Red;
              return Some(Move(randomHole, seedColor));
            }
          } else if blueCount > 0 && redCount > 0 {
            return Some(Move(randomHole, if d.blueCoin then Blue else Red));
          } else if blueCount > 0 {
            return Some(Move(randomHole, Blue));
          } else if redCount > 0 {
            return Some(Move(randomHole, Red));
          }
        }
        i := i + 1;
      }
      return None;
    }

    /** calculateEndHole (Alex): steps from the start hole once per seed, skipping
        the start hole and, for red seeds, the holes of `player`'s row. */
    method CalculateEndHole(startHole: int, seedCount: nat, color: Color, player: int) returns (currentHole: int)
      ensures currentHole == EndHole(startHole, seedCount, color, player)
    {
      currentHole := startHole;
      for i := 0 to seedCount
        invariant currentHole == EndHole(startHole, i, color, player)
      {
        currentHole := NextEndHole(startHole, currentHole, color, player);
      }
    }

    /** The body of calculateEndHole's loop: skip the start hole, step once, skip a
        hole of `player`'s row for red seeds, wrap with Java's %. */
    static method NextEndHole(startHole: int, current: int, color: Color, player: int) returns (currentHole: int)
      ensures currentHole == EndStep(startHole, current, color, player)
    {
      currentHole := current;
      if currentHole == startHole {
        currentHole := currentHole + 1;
      }
      currentHole := currentHole + 1;
      if color == Red && currentHole in PlayerHoles(player) {
        currentHole := currentHole + 1;
      }
      currentHole := JavaRem(currentHole, TOTAL_HOLES);
    }

    /** evaluateMoveQuality (Alex), on the manager's own board. */
    method EvaluateMoveQuality(live: Board, move: Move, player: int) returns (quality: int)
      requires live.Valid() && 0 <= move.hole < TOTAL_HOLES
      ensures quality == Quality(live.State(), move, player)
    {
      var seedCount := live.holes[move.hole].Count(move.color);
      var endHole := CalculateEndHole(move.hole, seedCount, move.color, player);
      EndHoleRange(move.hole, seedCount, move.color, player);
      var endHoleSeedCount := live.holes[endHole].Size();
      if endHoleSeedCount == 1 || endHoleSeedCount == 2 {
        return 1000;
      }
      return 0;
    }

    /** One root step shared by findBestMove and findBestMoveOld: sow on a copy, then
        minimax on it. None is the wall-clock exception; the move is legal, so
        sowSeeds does not throw, and minimax does not either. */
    method RootStep(board: Board, move: Move, depth: nat, alpha: int, beta: int, ticks: nat) returns (ev: Eval)
      requires board.Valid() && (board.currentPlayer == 1 || board.currentPlayer == 2)
      requires Owned(move, board.currentPlayer) && SeedsOf(board.State(), move) > 0
      ensures Sow(board.State(), move.hole, move.color).Sown?
      ensures ev == Minimax(Engine(kind, board.State(), heuristic),
        Sow(board.State(), move.hole, move.color).sowing.after, depth, alpha, beta, board.currentPlayer == 2, ticks)
      ensures ev.outcome != Thrown
    {
      var e := Engine(kind, board.State(), heuristic);
      RootChildInTurn(e, board.State(), move);
      var simulatedBoard := board.Copy();
      var error := simulatedBoard.SowSeeds(move.hole, move.color);
      assert error == None;
      MinimaxNeverThrows(e, simulatedBoard.State(), depth, alpha, beta, board.currentPlayer == 2, ticks);
      ev := Minimax(e, simulatedBoard.State(), depth, alpha, beta, board.currentPlayer == 2, ticks);
    }

    /** findBestMove: the random fallback, then the sorted possible moves at the
        optimized depth; a strictly better value replaces the move, alpha >= beta ends
        the loop, and a timeout returns the move held so far. */
    method FindBestMove(board: Board, draws: seq<Draw>, ticks: nat) returns (m: Option<Move>)
      requires board.Valid() && (board.currentPlayer == 1 || board.currentPlayer == 2)
      modifies this
      ensures unchanged(board, board.holes)
      ensures m.Some? <==> RandomMove(kind, board.State(), draws).Some?
      ensures m.Some? ==>
        var f := Search.FindBestMove(Engine(kind, board.State(), heuristic), board.State(), RandomMove(kind, board.State(), draws).value, ticks);
        f.Found? && m.value == f.move
      ensures m.Some? ==> currentDepth == DepthFor(kind, |PossibleMoves(kind, board.State(), board.State(), board.currentPlayer)|)
      ensures m.None? ==> currentDepth == old(currentDepth)
    {
      ghost var b := board.State();
      ghost var e := Engine(kind, b, heuristic);
      var player := board.currentPlayer;
      var alpha := MIN_VALUE;
      var beta := MAX_VALUE;
      var fallback := FindRandomMove(board, draws);
      if fallback.None? {
        return None;
      }
      var bestMove := fallback.value;
      var bestValue := Initial(player);
      var possibleMoves := GetAllPossibleMoves(player, board, board.State());
      OptimizeDepth(|possibleMoves|);
      assert possibleMoves == PossibleMoves(kind, b, b, player);
      ghost var depth := currentDepth;
      ghost var target := Search.FindBestMove(e, b, bestMove, ticks);
      var left := ticks;
      ghost var single: seq<seq<Move>> := [possibleMoves];
      ResumeFirst(e, b, currentDepth, single, player, Root(alpha, beta, bestMove, bestValue, left));
      assert single[1..] == [];
      for i := 0 to |possibleMoves|
        invariant currentDepth == depth
        invariant target == Resume(e, b, currentDepth, possibleMoves[i..], [], player, Root(alpha, beta, bestMove, bestValue, left))
      {
        assert possibleMoves[i..][1..] == possibleMoves[i + 1..];
        var move := possibleMoves[i];
        assert possibleMoves[i..][0] == move;
        PossibleMovesExact(kind, b, b, player, move);
        if board.HasSeeds(move.hole, move.color) {
          ghost var before := Root(alpha, beta, bestMove, bestValue, left);
          var ev := RootStep(board, move, currentDepth, alpha, beta, left);
          if ev.outcome.TimedOut? {
            return Some(bestMove);
          }
          ResumeValue(e, b, currentDepth, possibleMoves[i..], [], player, before);
          var moveValue := ev.outcome.v;
          if (player == 1 && moveValue > bestValue) || (player == 2 && moveValue < bestValue) {
            bestValue := moveValue;
            bestMove := move;
          }
          if player == 1 {
            alpha := Max(alpha, bestValue);
          } else {
            beta := Min(beta, bestValue);
          }
          left := ev.ticks;
          if alpha >= beta {
            return Some(bestMove);
          }
        }
      }
      return Some(bestMove);
    }

    /** findBestMoveOld (Nolan): holes of the current player's row, colours in enum
        order, minimax at depth 5; alpha >= beta leaves only the colour loop. */
    method FindBestMoveOld(board: Board, draws: seq<Draw>, ticks: nat) returns (m: Option<Move>)
      requires board.Valid() && (board.currentPlayer == 1 || board.currentPlayer == 2)
      ensures m.Some? <==> RandomMove(kind, board.State(), draws).Some?
      ensures m.Some? ==>
        var f := Search.FindBestMoveOld(Engine(kind, board.State(), heuristic), board.State(), RandomMove(kind, board.State(), draws).value, ticks);
        f.Found? && m.value == f.move
    {
      ghost var b := board.State();
      ghost var e := Engine(kind, b, heuristic);
      var player := board.currentPlayer;
      var alpha := MIN_VALUE;
      var beta := MAX_VALUE;
      var fallback := FindRandomMove(board, draws);
      if fallback.None? {
        return None;
      }
      var bestMove := fallback.value;
      var bestValue := Initial(player);
      var playerHoles := PlayerHoles(player);
      var colors := [Red, Blue];
      ghost var groups := HoleGroups(player);
      ghost var target := Search.FindBestMoveOld(e, b, bestMove, ticks);
      var left := ticks;
      for k := 0 to |playerHoles|
        invariant target == Finish(RootGroups(e, b, INITIAL_DEPTH, groups[k..], player, Root(alpha, beta, bestMove, bestValue, left)))
      {
        assert groups[k..][0] == groups[k] == [Move(playerHoles[k], Red), Move(playerHoles[k], Blue)];
        assert groups[k..][1..] == groups[k + 1..];
        ghost var group := groups[k];
        ResumeFirst(e, b, INITIAL_DEPTH, groups[k..], player, Root(alpha, beta, bestMove, bestValue, left));
        var ci := 0;
        while ci < |colors|
          invariant 0 <= ci <= |colors|
          invariant target == Resume(e, b, INITIAL_DEPTH, group[ci..], groups[k + 1..], player, Root(alpha, beta, bestMove, bestValue, left))
        {
          assert group[ci..][1..] == group[ci + 1..];
          var hole := playerHoles[k];
          var color := colors[ci];
          assert group[ci..][0] == group[ci] == Move(hole, color);
          if !board.HasSeeds(hole, color) {
            ResumeSkip(e, b, INITIAL_DEPTH, group[ci..], groups[k + 1..], player, Root(alpha, beta, bestMove, bestValue, left));
          } else {
            ghost var before := Root(alpha, beta, bestMove, bestValue, left);
            var ev := RootStep(board, Move(hole, color), INITIAL_DEPTH, alpha, beta, left);
            if ev.outcome.TimedOut? {
              return Some(bestMove);
            }
            ResumeValue(e, b, INITIAL_DEPTH, group[ci..], groups[k + 1..], player, before);
            var moveValue := ev.outcome.v;
            if (player == 1 && moveValue > bestValue) || (player == 2 && moveValue < bestValue) {
              bestValue := moveValue;
              bestMove := Move(hole, color);
            }
            if player == 1 {
              alpha := Max(alpha, bestValue);
            } else {
              beta := Min(beta, bestValue);
            }
            left := ev.ticks;
            if alpha >= beta {
              break;
            }
          }
          ci := ci + 1;
        }
      }
      return Some(bestMove);
    }

    /** findMove: Nolan's manager delegates to findBestMoveOld, the others to findBestMove. */
    method FindMove(board: Board, draws: seq<Draw>, ticks: nat) returns (m: Option<Move>)
      requires board.Valid() && (board.currentPlayer == 1 || board.currentPlayer == 2)
      modifies this
      ensures unchanged(board, board.holes)
      ensures m.Some? ==> Legal(board.State(), m.value.hole, m.value.color)
      ensures kind == Nolan ==> currentDepth == old(currentDepth)
      ensures kind != Nolan && m.Some? ==>
        currentDepth == DepthFor(kind, |PossibleMoves(kind, board.State(), board.State(), board.currentPlayer)|)
      ensures kind != Nolan && m.None? ==> currentDepth == old(currentDepth)
    {
      ghost var b := board.State();
      ghost var e := Engine(kind, b, heuristic);
      RandomMoveLegal(kind, b, draws);
      if kind == Nolan {
        m := FindBestMoveOld(board, draws, ticks);
        if m.Some? {
          OldRootKeepsFallbackUnlessBetter(e, b, RandomMove(kind, b, draws).value, ticks);
        }
      } else {
        m := FindBestMove(board, draws, ticks);
        if m.Some? {
          RootKeepsFallbackUnlessBetter(e, b, RandomMove(kind, b, draws).value, ticks);
        }
      }
    }
  }
}
