/** The integer-array search shared by common/AIManager.java and AIManager.java.
    A board is the number of seeds in each of the 16 holes, without colours; `half`
    splits it into holes 0..half-1 and half..15 (PLAYER_HOLES in the first file, the
    constant NUM_HOLES in the second). Sowing, capture and minimax are the same code
    in both files; what differs is the leaf value and whether a finished game stops
    the search, which IntSearch records. */
module IntBoard {
  import opened Rules

  predicate IsRing(s: seq<int>)
  {
    |s| == TOTAL_HOLES
  }

  /** The sum of the counts. */
  function Total(s: seq<int>): int
  {
    if s == [] then 0 else Total(s[..|s| - 1]) + s[|s| - 1]
  }

  lemma {:induction false} TotalAppend(s: seq<int>, t: seq<int>)
    ensures Total(s + t) == Total(s) + Total(t)
  {
    if t != [] {
      assert (s + t)[..|s + t| - 1] == s + t[..|t| - 1];
      TotalAppend(s, t[..|t| - 1]);
    } else {
      assert s + t == s;
    }
  }

  lemma {:induction false} TotalUpdate(s: seq<int>, i: int, v: int)
    requires 0 <= i < |s|
    ensures Total(s[i := v]) == Total(s) - s[i] + v
  {
    if i == |s| - 1 {
      assert s[i := v][..|s| - 1] == s[..|s| - 1];
    } else {
      assert s[i := v][..|s| - 1] == s[..|s| - 1][i := v];
      TotalUpdate(s[..|s| - 1], i, v);
    }
  }

  // ---------------------------------------------------------------------------
  // Sowing: makeMoveForSimulation / makeMove

  /** The hole after `pos`, Java's (pos + 1) % TOTAL_HOLES. */
  function Next(pos: int): (r: int)
    requires 0 <= pos < TOTAL_HOLES
    ensures r == if pos == TOTAL_HOLES - 1 then 0 else pos + 1
  {
    (pos + 1) % TOTAL_HOLES
  }

  /** The sowing loop from `pos` with `seeds` still in hand: one seed into each
      following hole, the origin included once the ring wraps. */
  function Drop(s: seq<int>, pos: int, seeds: int): (r: seq<int>)
    requires IsRing(s) && 0 <= pos < TOTAL_HOLES
    ensures IsRing(r)
    decreases seeds
  {
    if seeds <= 0 then s
    else
      var n := Next(pos);
      Drop(s[n := s[n] + 1], n, seeds - 1)
  }

  /** The hole the sowing loop ends on. */
  function DropEnd(pos: int, seeds: int): (r: int)
    requires 0 <= pos < TOTAL_HOLES
    ensures 0 <= r < TOTAL_HOLES
    decreases seeds
  {
    if seeds <= 0 then pos else DropEnd(Next(pos), seeds - 1)
  }

  /** How many steps forward from `pos` reach `i`: 1..15 for another hole, 16 for `pos` itself. */
  function Ahead(pos: int, i: int): int
  {
    if i > pos then i - pos else i - pos + TOTAL_HOLES
  }

  /** Sowing adds its seeds to the board total. */
  lemma {:induction false} DropTotal(s: seq<int>, pos: int, seeds: int)
    requires IsRing(s) && 0 <= pos < TOTAL_HOLES && seeds >= 0
    ensures Total(Drop(s, pos, seeds)) == Total(s) + seeds
    decreases seeds
  {
    if seeds > 0 {
      var n := Next(pos);
      TotalUpdate(s, n, s[n] + 1);
      DropTotal(s[n := s[n] + 1], n, seeds - 1);
    }
  }

  /** Fewer than 16 seeds: exactly the holes 1..seeds steps ahead of `pos` gain one seed. */
  lemma {:induction false} DropCell(s: seq<int>, pos: int, seeds: int, i: int)
    requires IsRing(s) && 0 <= pos < TOTAL_HOLES && 0 <= seeds < TOTAL_HOLES && 0 <= i < TOTAL_HOLES
    ensures Drop(s, pos, seeds)[i] == s[i] + (if Ahead(pos, i) <= seeds then 1 else 0)
    decreases seeds
  {
    if seeds > 0 {
      var n := Next(pos);
      DropCell(s[n := s[n] + 1], n, seeds - 1, i);
    }
  }

  /** Fewer than 16 seeds end `seeds` steps ahead of the origin. */
  lemma {:induction false} DropEndAhead(pos: int, seeds: int)
    requires 0 <= pos < TOTAL_HOLES && 0 < seeds < TOTAL_HOLES
    ensures Ahead(pos, DropEnd(pos, seeds)) == seeds
    decreases seeds
  {
    if seeds > 1 {
      DropEndAhead(Next(pos), seeds - 1);
    }
  }

  /** Sowing in two parts is sowing once. */
  lemma {:induction false} DropSplit(s: seq<int>, pos: int, a: nat, b: nat)
    requires IsRing(s) && 0 <= pos < TOTAL_HOLES
    ensures Drop(s, pos, a + b) == Drop(Drop(s, pos, a), DropEnd(pos, a), b)
    ensures DropEnd(pos, a + b) == DropEnd(DropEnd(pos, a), b)
    decreases a
  {
    if a > 0 {
      var n := Next(pos);
      DropSplit(s[n := s[n] + 1], n, a - 1, b);
    }
  }

  /** Unlike the colour board's blue sowing, the loop does not skip the origin: the
      16th seed of a hole lands back in it. */
  lemma {:induction false} SixteenthSeedReturns(s: seq<int>, hole: int)
    requires IsRing(s) && 0 <= hole < TOTAL_HOLES && s[hole] == TOTAL_HOLES
    ensures Drop(s[hole := 0], hole, s[hole])[hole] == 1
    ensures DropEnd(hole, s[hole]) == hole
  {
    var t := s[hole := 0];
    var seeds := s[hole];
    DropSplit(t, hole, seeds - 1, 1);
    var u := Drop(t, hole, seeds - 1);
    var e := DropEnd(hole, seeds - 1);
    DropCell(t, hole, seeds - 1, hole);
    assert u[hole] == 0;
    DropEndAhead(hole, seeds - 1);
    assert Next(e) == hole;
    DropOne(u, e);
  }

  lemma DropOne(u: seq<int>, e: int)
    requires IsRing(u) && 0 <= e < TOTAL_HOLES
    ensures Drop(u, e, 1) == u[Next(e) := u[Next(e)] + 1]
    ensures DropEnd(e, 1) == Next(e)
  {
  }

  // ---------------------------------------------------------------------------
  // Capture: captureSeedsForSimulation

  /** The half captureSeedsForSimulation assigns to the landing hole: 2 below `half`, else 1. */
  function HalfOwner(last: int, half: int): int
  {
    if last < half then 2 else 1
  }

  /** The capture loop's condition: `last` is a hole of `player`'s half. */
  predicate InOwnHalf(last: int, half: int, player: int)
  {
    0 <= last < TOTAL_HOLES && ((player == 1 && last >= half) || (player == 2 && last < half))
  }

  /** The capture loop from `last` downwards: zero each hole of 2 or 3 seeds, stop at
      the first other count or at the edge of the half. The captured total is dropped. */
  function CaptureDown(s: seq<int>, last: int, half: int, player: int): (r: seq<int>)
    requires IsRing(s)
    ensures IsRing(r)
    decreases if last < 0 then 0 else last + 1
  {
    if InOwnHalf(last, half, player) && (s[last] == 2 || s[last] == 3) then
      CaptureDown(s[last := 0], last - 1, half, player)
    else s
  }

  /** A hole changes only when it is in the half, at or below `last`, and held 2 or 3
      seeds; it is then emptied. */
  lemma {:induction false} CaptureCells(s: seq<int>, last: int, half: int, player: int)
    requires IsRing(s)
    ensures forall i :: 0 <= i < TOTAL_HOLES ==>
      || CaptureDown(s, last, half, player)[i] == s[i]
      || (CaptureDown(s, last, half, player)[i] == 0 && (s[i] == 2 || s[i] == 3)
          && InOwnHalf(i, half, player) && i <= last)
    decreases if last < 0 then 0 else last + 1
  {
    if InOwnHalf(last, half, player) && (s[last] == 2 || s[last] == 3) {
      CaptureCells(s[last := 0], last - 1, half, player);
    }
  }

  /** Capture never adds seeds. */
  lemma {:induction false} CaptureTotal(s: seq<int>, last: int, half: int, player: int)
    requires IsRing(s)
    ensures Total(CaptureDown(s, last, half, player)) <= Total(s)
    decreases if last < 0 then 0 else last + 1
  {
    if InOwnHalf(last, half, player) && (s[last] == 2 || s[last] == 3) {
      TotalUpdate(s, last, 0);
      CaptureTotal(s[last := 0], last - 1, half, player);
    }
  }

  /** makeMoveForSimulation / makeMove: empty the origin, sow its count, capture. */
  function IntSow(s: seq<int>, hole: int, half: int): (r: seq<int>)
    requires IsRing(s) && 0 <= hole < TOTAL_HOLES
    ensures IsRing(r)
  {
    var sown := Drop(s[hole := 0], hole, s[hole]);
    var last := DropEnd(hole, s[hole]);
    CaptureDown(sown, last, half, HalfOwner(last, half))
  }

  /** A move from a hole holding a non-negative count never raises the board total. */
  lemma IntSowTotal(s: seq<int>, hole: int, half: int)
    requires IsRing(s) && 0 <= hole < TOTAL_HOLES && s[hole] >= 0
    ensures Total(IntSow(s, hole, half)) <= Total(s)
  {
    TotalUpdate(s, hole, 0);
    DropTotal(s[hole := 0], hole, s[hole]);
    var last := DropEnd(hole, s[hole]);
    CaptureTotal(Drop(s[hole := 0], hole, s[hole]), last, half, HalfOwner(last, half));
  }

  /** The sowing loop on the array. */
  method MakeMove(board: array<int>, hole: int, half: int)
    requires board.Length == TOTAL_HOLES && 0 <= hole < TOTAL_HOLES
    modifies board
    ensures board[..] == IntSow(old(board[..]), hole, half)
  {
    ghost var s := board[..];
    var seeds := board[hole];
    board[hole] := 0;
    var pos := hole;
    while seeds > 0
      invariant 0 <= pos < TOTAL_HOLES && board.Length == TOTAL_HOLES
      invariant Drop(board[..], pos, seeds) == Drop(s[hole := 0], hole, s[hole])
      invariant DropEnd(pos, seeds) == DropEnd(hole, s[hole])
      decreases seeds
    {
      pos := (pos + 1) % TOTAL_HOLES;
      board[pos] := board[pos] + 1;
      seeds := seeds - 1;
    }
    CaptureSeedsForSimulation(board, pos, half);
  }

  /** The capture loop on the array. */
  method CaptureSeedsForSimulation(board: array<int>, lastHole: int, half: int)
    requires board.Length == TOTAL_HOLES
    modifies board
    ensures board[..] == CaptureDown(old(board[..]), lastHole, half, HalfOwner(lastHole, half))
  {
    ghost var target := CaptureDown(board[..], lastHole, half, HalfOwner(lastHole, half));
    var capturedSeeds := 0;
    var player := if lastHole < half then 2 else 1;
    var last := lastHole;
    while 0 <= last < TOTAL_HOLES && ((player == 1 && last >= half) || (player == 2 && last < half))
      invariant CaptureDown(board[..], last, half, player) == target
      decreases last + 1
    {
      if board[last] == 2 || board[last] == 3 {
        capturedSeeds := capturedSeeds + board[last];
        board[last] := 0;
      } else {
        break;
      }
      last := last - 1;
    }
  }

  // ---------------------------------------------------------------------------
  // Evaluation and end of game on the array (AIManager.java)

  /** evaluateBoard(int[]): the seeds of holes 0..half-1 minus those of half..15. */
  function IntLead(s: seq<int>, half: int): int
    requires IsRing(s) && 0 <= half <= TOTAL_HOLES
  {
    Total(s[..half]) - Total(s[half..])
  }

  predicate AnyPositive(s: seq<int>, lo: int, hi: int)
    requires 0 <= lo <= hi <= |s|
  {
    exists i :: lo <= i < hi && s[i] > 0
  }

  /** isGameOver(int[]): one of the two halves holds no positive count. */
  predicate IntGameOver(s: seq<int>, half: int)
    requires IsRing(s) && 0 <= half <= TOTAL_HOLES
  {
    !(AnyPositive(s, half, TOTAL_HOLES) && AnyPositive(s, 0, half))
  }

  // ---------------------------------------------------------------------------
  // Minimax with alpha-beta, and the plain minimax it approximates

  /** The leaf value (the live board's lead when fixed, else evaluateBoard(int[])) and
      whether a finished game ends the search. */
  datatype IntSearch = IntSearch(half: int, live: Option<int>, stopWhenOver: bool)

  predicate Fits(c: IntSearch)
  {
    0 <= c.half <= TOTAL_HOLES
  }

  function Leaf(c: IntSearch, s: seq<int>): int
    requires Fits(c) && IsRing(s)
  {
    match c.live
    case Some(v) => v
    case None => IntLead(s, c.half)
  }

  /** The maximizing node scans holes 0..half-1, the minimizing node half..15. */
  function Hi(c: IntSearch, isMax: bool): int
  {
    if isMax then c.half else TOTAL_HOLES
  }

  function Lo(c: IntSearch, isMax: bool): int
  {
    if isMax then 0 else c.half
  }

  predicate Stops(c: IntSearch, s: seq<int>, depth: nat)
    requires Fits(c) && IsRing(s)
  {
    depth == 0 || (c.stopWhenOver && IntGameOver(s, c.half))
  }

  /** minimax(board, depth, alpha, beta, isMaximizingPlayer) as the Java writes it. */
  function AlphaBeta(c: IntSearch, s: seq<int>, depth: nat, alpha: int, beta: int, isMax: bool): int
    requires Fits(c) && IsRing(s)
    decreases depth, 1, 0
  {
    if Stops(c, s, depth) then Leaf(c, s)
    else Fold(c, s, depth, isMax, Lo(c, isMax), alpha, beta, if isMax then MIN_VALUE else MAX_VALUE)
  }

  /** The node's loop from hole i, with maxEval or minEval in `acc`; a hole is a move
      when it holds more than one seed; beta <= alpha breaks the loop. */
  function Fold(c: IntSearch, s: seq<int>, depth: nat, isMax: bool, i: int, alpha: int, beta: int, acc: int): int
    requires Fits(c) && IsRing(s) && depth > 0 && 0 <= i
    decreases depth, 0, Hi(c, isMax) - i
  {
    if i >= Hi(c, isMax) then acc
    else if s[i] > 1 then
      var v := AlphaBeta(c, IntSow(s, i, c.half), depth - 1, alpha, beta, !isMax);
      if isMax then
        if beta <= Max(alpha, v) then Max(acc, v)
        else Fold(c, s, depth, isMax, i + 1, Max(alpha, v), beta, Max(acc, v))
      else
        if Min(beta, v) <= alpha then Min(acc, v)
        else Fold(c, s, depth, isMax, i + 1, alpha, Min(beta, v), Min(acc, v))
    else Fold(c, s, depth, isMax, i + 1, alpha, beta, acc)
  }

  /** The same search without the window: every move is expanded. */
  function Minimax(c: IntSearch, s: seq<int>, depth: nat, isMax: bool): int
    requires Fits(c) && IsRing(s)
    decreases depth, 1, 0
  {
    if Stops(c, s, depth) then Leaf(c, s)
    else PlainFold(c, s, depth, isMax, Lo(c, isMax), if isMax then MIN_VALUE else MAX_VALUE)
  }

  function PlainFold(c: IntSearch, s: seq<int>, depth: nat, isMax: bool, i: int, acc: int): int
    requires Fits(c) && IsRing(s) && depth > 0 && 0 <= i
    decreases depth, 0, Hi(c, isMax) - i
  {
    if i >= Hi(c, isMax) then acc
    else if s[i] > 1 then
      var m := Minimax(c, IntSow(s, i, c.half), depth - 1, !isMax);
      PlainFold(c, s, depth, isMax, i + 1, if isMax then Max(acc, m) else Min(acc, m))
    else PlainFold(c, s, depth, isMax, i + 1, acc)
  }

  /** A node without a hole of more than one seed returns its sentinel. */
  lemma {:induction false} NoMoveFold(c: IntSearch, s: seq<int>, depth: nat, isMax: bool, i: int, alpha: int, beta: int, acc: int)
    requires Fits(c) && IsRing(s) && depth > 0 && 0 <= i
    requires forall j :: i <= j < Hi(c, isMax) ==> s[j] <= 1
    ensures Fold(c, s, depth, isMax, i, alpha, beta, acc) == acc
    decreases Hi(c, isMax) - i
  {
    if i < Hi(c, isMax) {
      NoMoveFold(c, s, depth, isMax, i + 1, alpha, beta, acc);
    }
  }

  /** The plain fold never ends below (maximizing) or above (minimizing) its start. */
  lemma {:induction false} PlainFoldBound(c: IntSearch, s: seq<int>, depth: nat, isMax: bool, i: int, acc: int)
    requires Fits(c) && IsRing(s) && depth > 0 && 0 <= i
    ensures isMax ==> PlainFold(c, s, depth, isMax, i, acc) >= acc
    ensures !isMax ==> PlainFold(c, s, depth, isMax, i, acc) <= acc
    decreases Hi(c, isMax) - i
  {
    if i < Hi(c, isMax) {
      if s[i] > 1 {
        var m := Minimax(c, IntSow(s, i, c.half), depth - 1, !isMax);
        PlainFoldBound(c, s, depth, isMax, i + 1, if isMax then Max(acc, m) else Min(acc, m));
      } else {
        PlainFoldBound(c, s, depth, isMax, i + 1, acc);
      }
    }
  }

  /** The fail-soft guarantee of alpha-beta: a value at or below alpha bounds the true
      value from above, one at or above beta bounds it from below, and one strictly
      inside the window is the true value. */
  predicate Bounds(v: int, m: int, alpha: int, beta: int)
  {
    && (v <= alpha ==> m <= v)
    && (v >= beta ==> m >= v)
    && (alpha < v < beta ==> m == v)
  }

  /** The alpha-beta minimax agrees with the plain minimax within its window. */
  lemma {:induction false} AlphaBetaSound(c: IntSearch, s: seq<int>, depth: nat, alpha: int, beta: int, isMax: bool)
    requires Fits(c) && IsRing(s) && MIN_VALUE <= alpha < beta <= MAX_VALUE
    ensures Bounds(AlphaBeta(c, s, depth, alpha, beta, isMax), Minimax(c, s, depth, isMax), alpha, beta)
    decreases depth, 1, 0
  {
    if !Stops(c, s, depth) {
      if isMax {
        MaxFoldSound(c, s, depth, 0, alpha, alpha, beta, MIN_VALUE, MIN_VALUE);
      } else {
        MinFoldSound(c, s, depth, c.half, alpha, beta, beta, MAX_VALUE, MAX_VALUE);
      }
    }
  }

  /** The maximizing loop: `acc` is maxEval, `accP` the plain fold's running maximum,
      alpha0 the node's own alpha. */
  lemma {:induction false} MaxFoldSound(c: IntSearch, s: seq<int>, depth: nat, i: int, alpha0: int, alpha: int, beta: int, acc: int, accP: int)
    requires Fits(c) && IsRing(s) && depth > 0 && 0 <= i
    requires MIN_VALUE <= alpha0 && beta <= MAX_VALUE
    requires alpha == Max(alpha0, acc) && alpha < beta
    requires accP <= acc && (acc > alpha0 ==> accP == acc)
    ensures Bounds(Fold(c, s, depth, true, i, alpha, beta, acc), PlainFold(c, s, depth, true, i, accP), alpha0, beta)
    decreases depth, 0, Hi(c, true) - i
  {
    if i < Hi(c, true) {
      if s[i] > 1 {
        var child := IntSow(s, i, c.half);
        var v := AlphaBeta(c, child, depth - 1, alpha, beta, false);
        var m := Minimax(c, child, depth - 1, false);
        AlphaBetaSound(c, child, depth - 1, alpha, beta, false);
        if beta <= Max(alpha, v) {
          PlainFoldBound(c, s, depth, true, i + 1, Max(accP, m));
        } else {
          MaxFoldSound(c, s, depth, i + 1, alpha0, Max(alpha, v), beta, Max(acc, v), Max(accP, m));
        }
      } else {
        MaxFoldSound(c, s, depth, i + 1, alpha0, alpha, beta, acc, accP);
      }
    }
  }

  /** The minimizing loop, the mirror image of MaxFoldSound. */
  lemma {:induction false} MinFoldSound(c: IntSearch, s: seq<int>, depth: nat, i: int, alpha: int, beta0: int, beta: int, acc: int, accP: int)
    requires Fits(c) && IsRing(s) && depth > 0 && 0 <= i
    requires MIN_VALUE <= alpha && beta0 <= MAX_VALUE
    requires beta == Min(beta0, acc) && alpha < beta
    requires accP >= acc && (acc < beta0 ==> accP == acc)
    ensures Bounds(Fold(c, s, depth, false, i, alpha, beta, acc), PlainFold(c, s, depth, false, i, accP), alpha, beta0)
    decreases depth, 0, Hi(c, false) - i
  {
    if i < Hi(c, false) {
      if s[i] > 1 {
        var child := IntSow(s, i, c.half);
        var v := AlphaBeta(c, child, depth - 1, alpha, beta, true);
        var m := Minimax(c, child, depth - 1, true);
        AlphaBetaSound(c, child, depth - 1, alpha, beta, true);
        if Min(beta, v) <= alpha {
          PlainFoldBound(c, s, depth, false, i + 1, Min(accP, m));
        } else {
          MinFoldSound(c, s, depth, i + 1, alpha, beta0, Min(beta, v), Min(acc, v), Min(accP, m));
        }
      } else {
        MinFoldSound(c, s, depth, i + 1, alpha, beta0, beta, acc, accP);
      }
    }
  }

  // ---------------------------------------------------------------------------
  // The root loop of findBestMove

  /** bestMove and bestValue. */
  datatype Pick = Pick(move: int, value: int)

  /** The value the root gives hole i: minimax on the board after the move, with the
      full window. */
  function RootValue(c: IntSearch, s: seq<int>, depth: nat, childMax: bool, i: int): int
    requires Fits(c) && IsRing(s) && 0 <= i < TOTAL_HOLES
  {
    AlphaBeta(c, IntSow(s, i, c.half), depth, MIN_VALUE, MAX_VALUE, childMax)
  }

  /** `x` replaces `y`: strictly greater when the root maximizes, strictly smaller otherwise. */
  predicate Beats(greater: bool, x: int, y: int)
  {
    if greater then x > y else x < y
  }

  /** A hole the root tries: in [lo, hi) with more than one seed. */
  predicate Candidate(s: seq<int>, lo: int, hi: int, j: int)
    requires IsRing(s)
  {
    lo <= j < hi && 0 <= j < TOTAL_HOLES && s[j] > 1
  }

  /** The values the root gives holes 0..n-1, each searched from MIN_VALUE..MAX_VALUE. */
  function RootValues(c: IntSearch, s: seq<int>, depth: nat, childMax: bool, n: nat): (r: seq<int>)
    requires Fits(c) && IsRing(s) && n <= TOTAL_HOLES
    ensures |r| == n
  {
    if n == 0 then [] else RootValues(c, s, depth, childMax, n - 1) + [RootValue(c, s, depth, childMax, n - 1)]
  }

  lemma {:induction false} RootValuesAt(c: IntSearch, s: seq<int>, depth: nat, childMax: bool, n: nat, j: int)
    requires Fits(c) && IsRing(s) && n <= TOTAL_HOLES && 0 <= j < n
    ensures RootValues(c, s, depth, childMax, n)[j] == RootValue(c, s, depth, childMax, j)
  {
    if j < n - 1 {
      RootValuesAt(c, s, depth, childMax, n - 1, j);
    }
  }

  /** The root loop over holes i..hi-1, hole j being worth vals[j]. With `firstTakes`
      the first candidate is taken whatever its value (bestMove == -1 || ...). */
  function Scan(s: seq<int>, vals: seq<int>, greater: bool, firstTakes: bool, i: int, hi: int, p: Pick): Pick
    requires IsRing(s) && |vals| == TOTAL_HOLES && 0 <= i && hi <= TOTAL_HOLES
    decreases hi - i
  {
    if i >= hi then p
    else if s[i] > 1 then
      var take := (firstTakes && p.move == -1) || Beats(greater, vals[i], p.value);
      Scan(s, vals, greater, firstTakes, i + 1, hi, if take then Pick(i, vals[i]) else p)
    else Scan(s, vals, greater, firstTakes, i + 1, hi, p)
  }

  /** The root loop of findBestMove with the searched values. */
  function RootFold(c: IntSearch, s: seq<int>, depth: nat, childMax: bool, greater: bool, firstTakes: bool, i: int, hi: int, p: Pick): Pick
    requires Fits(c) && IsRing(s) && 0 <= i && hi <= TOTAL_HOLES
  {
    Scan(s, RootValues(c, s, depth, childMax, TOTAL_HOLES), greater, firstTakes, i, hi, p)
  }

  /** The root without `firstTakes` keeps its start unless some candidate beats the
      start value; otherwise it holds a candidate whose value no candidate beats and
      which strictly beats every earlier candidate. */
  lemma {:induction false} ScanBest(s: seq<int>, vals: seq<int>, greater: bool, i: int, hi: int, p: Pick)
    requires IsRing(s) && |vals| == TOTAL_HOLES && 0 <= i && hi <= TOTAL_HOLES && p.move < i
    ensures var r := Scan(s, vals, greater, false, i, hi, p);
      && (r == p <==> forall j :: Candidate(s, i, hi, j) ==> !Beats(greater, vals[j], p.value))
      && (r != p ==> Candidate(s, i, hi, r.move) && r.value == vals[r.move] && Beats(greater, r.value, p.value))
      && (forall j :: Candidate(s, i, hi, j) ==> !Beats(greater, vals[j], r.value))
      && (r != p ==> forall j :: Candidate(s, i, r.move, j) ==> Beats(greater, r.value, vals[j]))
    decreases hi - i
  {
    if i < hi {
      if s[i] > 1 {
        var q := if Beats(greater, vals[i], p.value) then Pick(i, vals[i]) else p;
        ScanBest(s, vals, greater, i + 1, hi, q);
      } else {
        ScanBest(s, vals, greater, i + 1, hi, p);
      }
    }
  }

  /** The root keeps its start or holds a candidate of the range. */
  lemma {:induction false} ScanPicksCandidate(s: seq<int>, vals: seq<int>, greater: bool, firstTakes: bool, i: int, hi: int, p: Pick)
    requires IsRing(s) && |vals| == TOTAL_HOLES && 0 <= i && hi <= TOTAL_HOLES
    ensures var r := Scan(s, vals, greater, firstTakes, i, hi, p);
      r == p || Candidate(s, i, hi, r.move)
    decreases hi - i
  {
    if i < hi {
      if s[i] > 1 {
        var take := (firstTakes && p.move == -1) || Beats(greater, vals[i], p.value);
        ScanPicksCandidate(s, vals, greater, firstTakes, i + 1, hi, if take then Pick(i, vals[i]) else p);
      } else {
        ScanPicksCandidate(s, vals, greater, firstTakes, i + 1, hi, p);
      }
    }
  }

  lemma RootFoldCandidate(c: IntSearch, s: seq<int>, depth: nat, childMax: bool, greater: bool, firstTakes: bool, i: int, hi: int, p: Pick)
    requires Fits(c) && IsRing(s) && 0 <= i && hi <= TOTAL_HOLES
    ensures var r := RootFold(c, s, depth, childMax, greater, firstTakes, i, hi, p);
      r == p || Candidate(s, i, hi, r.move)
  {
    ScanPicksCandidate(s, RootValues(c, s, depth, childMax, TOTAL_HOLES), greater, firstTakes, i, hi, p);
  }

  /** ScanBest for the searched values. */
  lemma RootFoldBest(c: IntSearch, s: seq<int>, depth: nat, childMax: bool, greater: bool, i: int, hi: int, p: Pick)
    requires Fits(c) && IsRing(s) && 0 <= i && hi <= TOTAL_HOLES && p.move < i
    ensures var r := RootFold(c, s, depth, childMax, greater, false, i, hi, p);
      && (r == p <==> forall j :: Candidate(s, i, hi, j) ==> !Beats(greater, RootValue(c, s, depth, childMax, j), p.value))
      && (r != p ==> Candidate(s, i, hi, r.move) && r.value == RootValue(c, s, depth, childMax, r.move)
                     && Beats(greater, r.value, p.value))
      && (forall j :: Candidate(s, i, hi, j) ==> !Beats(greater, RootValue(c, s, depth, childMax, j), r.value))
      && (r != p ==> forall j :: Candidate(s, i, r.move, j) ==> Beats(greater, r.value, RootValue(c, s, depth, childMax, j)))
  {
    var vals := RootValues(c, s, depth, childMax, TOTAL_HOLES);
    ScanBest(s, vals, greater, i, hi, p);
    forall j | 0 <= j < TOTAL_HOLES
      ensures vals[j] == RootValue(c, s, depth, childMax, j)
    {
      RootValuesAt(c, s, depth, childMax, TOTAL_HOLES, j);
    }
  }

  /** Once a move is held, `firstTakes` no longer matters. */
  lemma {:induction false} FirstTakesOnce(s: seq<int>, vals: seq<int>, greater: bool, i: int, hi: int, p: Pick)
    requires IsRing(s) && |vals| == TOTAL_HOLES && 0 <= i && hi <= TOTAL_HOLES && p.move != -1
    ensures Scan(s, vals, greater, true, i, hi, p) == Scan(s, vals, greater, false, i, hi, p)
    decreases hi - i
  {
    if i < hi {
      if s[i] > 1 {
        var q := if Beats(greater, vals[i], p.value) then Pick(i, vals[i]) else p;
        FirstTakesOnce(s, vals, greater, i + 1, hi, q);
      } else {
        FirstTakesOnce(s, vals, greater, i + 1, hi, p);
      }
    }
  }

  /** The first candidate is taken; from then on the root runs as without `firstTakes`. */
  lemma FirstCandidateTaken(s: seq<int>, vals: seq<int>, greater: bool, i: int, hi: int, p: Pick)
    requires IsRing(s) && |vals| == TOTAL_HOLES && 0 <= i < hi <= TOTAL_HOLES && p.move == -1 && s[i] > 1
    ensures var r := Scan(s, vals, greater, true, i, hi, p);
      && r.move != -1 && Candidate(s, i, hi, r.move) && r.value == vals[r.move]
      && (forall j :: Candidate(s, i, hi, j) ==> !Beats(greater, vals[j], r.value))
      && (forall j :: Candidate(s, i, r.move, j) ==> Beats(greater, r.value, vals[j]))
  {
    var q := Pick(i, vals[i]);
    assert Scan(s, vals, greater, true, i, hi, p) == Scan(s, vals, greater, true, i + 1, hi, q);
    FirstTakesOnce(s, vals, greater, i + 1, hi, q);
    ScanBest(s, vals, greater, i + 1, hi, q);
    var r := Scan(s, vals, greater, false, i + 1, hi, q);
    assert Candidate(s, i, hi, i);
    forall j | Candidate(s, i, hi, j)
      ensures !Beats(greater, vals[j], r.value)
    {
      if j > i {
        assert Candidate(s, i + 1, hi, j);
      }
    }
    forall j | Candidate(s, i, r.move, j)
      ensures Beats(greater, r.value, vals[j])
    {
      if j > i {
        assert Candidate(s, i + 1, r.move, j);
      }
    }
  }

  /** With `firstTakes`, starting from no move, the root ends without a move exactly
      when no hole is a candidate; otherwise it holds a candidate whose value no
      candidate beats and which strictly beats every earlier candidate. */
  lemma {:induction false} ScanFirstTakes(s: seq<int>, vals: seq<int>, greater: bool, i: int, hi: int, p: Pick)
    requires IsRing(s) && |vals| == TOTAL_HOLES && 0 <= i && hi <= TOTAL_HOLES && p.move == -1
    ensures var r := Scan(s, vals, greater, true, i, hi, p);
      && (r.move == -1 <==> forall j :: !Candidate(s, i, hi, j))
      && (r.move != -1 ==> Candidate(s, i, hi, r.move) && r.value == vals[r.move])
      && (r.move != -1 ==> forall j :: Candidate(s, i, hi, j) ==> !Beats(greater, vals[j], r.value))
      && (r.move != -1 ==> forall j :: Candidate(s, i, r.move, j) ==> Beats(greater, r.value, vals[j]))
    decreases hi - i
  {
    if i < hi {
      if s[i] > 1 {
        FirstCandidateTaken(s, vals, greater, i, hi, p);
        assert Candidate(s, i, hi, i);
      } else {
        ScanFirstTakes(s, vals, greater, i + 1, hi, p);
        var r := Scan(s, vals, greater, true, i + 1, hi, p);
        if r.move == -1 {
          forall j | Candidate(s, i, hi, j)
            ensures false
          {
            assert Candidate(s, i + 1, hi, j);
          }
        } else {
          assert Candidate(s, i, hi, r.move);
          forall j | Candidate(s, i, hi, j)
            ensures Candidate(s, i + 1, hi, j)
          {
          }
        }
        forall j | Candidate(s, i, r.move, j)
          ensures Candidate(s, i + 1, r.move, j)
        {
        }
      }
    }
  }

  /** ScanFirstTakes for the searched values. */
  lemma RootFoldFirstTakes(c: IntSearch, s: seq<int>, depth: nat, childMax: bool, greater: bool, i: int, hi: int, p: Pick)
    requires Fits(c) && IsRing(s) && 0 <= i && hi <= TOTAL_HOLES && p.move == -1
    ensures var r := RootFold(c, s, depth, childMax, greater, true, i, hi, p);
      && (r.move == -1 <==> forall j :: !Candidate(s, i, hi, j))
      && (r.move != -1 ==> Candidate(s, i, hi, r.move) && r.value == RootValue(c, s, depth, childMax, r.move))
      && (r.move != -1 ==> forall j :: Candidate(s, i, hi, j) ==> !Beats(greater, RootValue(c, s, depth, childMax, j), r.value))
      && (r.move != -1 ==> forall j :: Candidate(s, i, r.move, j) ==> Beats(greater, r.value, RootValue(c, s, depth, childMax, j)))
  {
    var vals := RootValues(c, s, depth, childMax, TOTAL_HOLES);
    ScanFirstTakes(s, vals, greater, i, hi, p);
    forall j | 0 <= j < TOTAL_HOLES
      ensures vals[j] == RootValue(c, s, depth, childMax, j)
    {
      RootValuesAt(c, s, depth, childMax, TOTAL_HOLES, j);
    }
  }

  /** The array a simulation works on: board.clone(). */
  method Clone(board: array<int>) returns (copy: array<int>)
    ensures fresh(copy) && copy[..] == board[..]
  {
    copy := new int[board.Length](k requires 0 <= k < board.Length reads board => board[k]);
  }
}
