/** The minimax search of the five game/player/AIManager*.java variants, as pure
    functions on board values. The variants differ only in a handful of choices
    (which player the maximizing node expands, whether the child's current player
    is forced, the immediate-win test, the move order, the wall-clock limit, the
    leaf evaluation and the depth table); `Kind` names the variant and small
    functions give its choices. Board.copy() becomes passing a value, so no search
    can change the caller's board. */
module Search {
  import opened Rules

  /** The five search classes: AIManagerUltimate, AIManagerNew, AIManagerTest,
      AIManagerAlex and AIManagerNolan. */
  datatype Kind = Ultimate | New | Test | Alex | Nolan

  /** The test a child board passes before minimax recurses into it. */
  datatype WinCheck = NoWinCheck | StatusWinner | WinningState

  /** The comparator of getAllPossibleMoves. */
  datatype Ordering = ByCapture | ByCaptureShared | ByCount | ByQuality

  const INITIAL_DEPTH: nat := 5

  /** Ultimate's maximizing node expands Player 1's moves; every other variant's
      maximizing node expands Player 2's. */
  function MaxIsOne(k: Kind): bool { k == Ultimate }

  /** Only Ultimate calls forceCurrentPlayer on a child and catches a rejected move. */
  function Forces(k: Kind): bool { k == Ultimate }

  function WinCheckOf(k: Kind): WinCheck
  {
    match k
    case Ultimate => NoWinCheck
    case New => StatusWinner
    case Test => StatusWinner
    case Alex => WinningState
    case Nolan => WinningState
  }

  function OrderingOf(k: Kind): Ordering
  {
    match k
    case Ultimate => ByCapture
    case New => ByCount
    case Test => ByCaptureShared
    case Alex => ByQuality
    case Nolan => ByCount
  }

  /** Ultimate and New check the 2000 ms limit at every inner node. */
  function Timed(k: Kind): bool { k == Ultimate || k == New }

  /** Nolan's minimax walks holes and colours itself instead of a sorted move list. */
  function HoleByHole(k: Kind): bool { k == Nolan }

  /** The player whose moves a node expands. */
  function Side(k: Kind, isMax: bool): (p: int)
    ensures p == 1 || p == 2
  {
    if isMax == MaxIsOne(k) then 1 else 2
  }

  /** optimizeDepth: the search depth for a number of legal root moves. */
  function DepthFor(k: Kind, count: int): (d: nat)
    ensures d >= INITIAL_DEPTH
  {
    match k
    case Ultimate =>
      if count > 8 then 5 else if count > 6 then 7 else if count > 4 then 8
      else if count > 3 then 9 else if count > 2 then 10 else 11
    case New =>
      if count > 8 then 5 else if count > 4 then 10 else if count > 3 then 11
      else if count > 2 then 12 else 13
    case Test =>
      if count > 8 then 5 else if count > 4 then 8 else if count > 3 then 9
      else if count > 2 then 10 else 11
    case Alex =>
      if count > 8 then 5 else if count > 4 then 10 else if count > 3 then 15
      else if count > 2 then 20 else 25
    case Nolan =>
      if count > 8 then 5 else if count > 4 then 6 else if count > 2 then 8 else 9
  }

  /** More legal moves never mean a deeper search. */
  lemma DepthNonIncreasing(k: Kind, fewer: int, more: int)
    requires fewer <= more
    ensures DepthFor(k, more) <= DepthFor(k, fewer)
    ensures more > 8 ==> DepthFor(k, more) == INITIAL_DEPTH
  {
  }

  // ---------------------------------------------------------------------------
  // Move enumeration

  /** getSeedsInHole(hole, color), zero for a hole outside the board. */
  function SeedsOf(b: BoardState, m: Move): nat
  {
    if 0 <= m.hole < TOTAL_HOLES then b.holes[m.hole].Count(m.color) else 0
  }

  /** A hole of the player's parity row. */
  predicate Owned(m: Move, player: int)
  {
    0 <= m.hole < TOTAL_HOLES && m.hole % 2 == Parity(player)
  }

  /** The moves of one hole, colours in enum order RED, BLUE, each only if present. */
  function HoleMoves(b: BoardState, h: int): seq<Move>
    requires 0 <= h < TOTAL_HOLES
  {
    (if b.holes[h].Count(Red) > 0 then [Move(h, Red)] else [])
      + (if b.holes[h].Count(Blue) > 0 then [Move(h, Blue)] else [])
  }

  /** The moves of the first k holes of a row, in row order. */
  function RowMoves(b: BoardState, row: seq<int>, k: nat): seq<Move>
    requires k <= |row|
    requires forall i :: 0 <= i < |row| ==> 0 <= row[i] < TOTAL_HOLES
  {
    if k == 0 then [] else RowMoves(b, row, k - 1) + HoleMoves(b, row[k - 1])
  }

  /** The list getAllPossibleMoves builds before sorting it. */
  function Candidates(b: BoardState, player: int): seq<Move>
  {
    RowMoves(b, PlayerHoles(player), PLAYER_HOLES)
  }

  lemma {:induction false} RowMovesExact(b: BoardState, row: seq<int>, k: nat, m: Move)
    requires k <= |row|
    requires forall i :: 0 <= i < |row| ==> 0 <= row[i] < TOTAL_HOLES
    ensures m in RowMoves(b, row, k) <==> (exists i :: 0 <= i < k && row[i] == m.hole) && SeedsOf(b, m) > 0
  {
    if k > 0 {
      RowMovesExact(b, row, k - 1, m);
      if m.hole == row[k - 1] && SeedsOf(b, m) > 0 {
        assert m in HoleMoves(b, row[k - 1]) by {
          if m.color == Red {
            assert HoleMoves(b, row[k - 1])[0] == m;
          }
        }
      }
      if exists i :: 0 <= i < k && row[i] == m.hole {
        var i :| 0 <= i < k && row[i] == m.hole;
        if i == k - 1 {
          assert m.hole == row[k - 1];
        }
      }
    }
  }

  /** getAllPossibleMoves enumerates exactly the (hole, colour) pairs of the player's
      parity row whose hole holds that colour. */
  lemma CandidatesExact(b: BoardState, player: int, m: Move)
    ensures m in Candidates(b, player) <==> Owned(m, player) && SeedsOf(b, m) > 0
  {
    var row := PlayerHoles(player);
    RowMovesExact(b, row, PLAYER_HOLES, m);
    if Owned(m, player) {
      assert m.hole in row;
    }
  }

  // ---------------------------------------------------------------------------
  // Move ordering

  /** Integer.compare */
  function Compare(x: int, y: int): int
  {
    if x < y then -1 else if x > y then 1 else 0
  }

  /** sowSeedsForSimulation (not shown in the repository): the seeds a move would
      capture, zero and no change for a move sowSeeds would reject. */
  function Captured(b: BoardState, m: Move): nat
  {
    match Sow(b, m.hole, m.color)
    case Sown(s) => s.captured
    case Rejected(_) => 0
  }

  function AfterSimulation(b: BoardState, m: Move): BoardState
  {
    match Sow(b, m.hole, m.color)
    case Sown(s) => s.after
    case Rejected(_) => b
  }

  /** Java's % on int: the remainder takes the sign of the dividend. */
  function JavaRem(x: int, m: int): int
    requires m > 0
  {
    if x >= 0 then x % m else -((-x) % m)
  }

  /** One iteration of calculateEndHole's loop. */
  function EndStep(start: int, current: int, c: Color, player: int): int
  {
    var stepped := (if current == start then current + 1 else current) + 1;
    var skipped := if c == Red && stepped in PlayerHoles(player) then stepped + 1 else stepped;
    JavaRem(skipped, TOTAL_HOLES)
  }

  /** calculateEndHole after `count` iterations. */
  function EndHole(start: int, count: nat, c: Color, player: int): int
  {
    if count == 0 then start else EndStep(start, EndHole(start, count - 1, c, player), c, player)
  }

  /** calculateEndHole returns the start hole for no seeds and a hole of the board otherwise. */
  lemma {:induction false} EndHoleRange(start: int, count: nat, c: Color, player: int)
    requires 0 <= start < TOTAL_HOLES
    ensures count == 0 ==> EndHole(start, count, c, player) == start
    ensures 0 <= EndHole(start, count, c, player) < TOTAL_HOLES
  {
    if count > 0 {
      EndHoleRange(start, count - 1, c, player);
    }
  }

  /** One step of calculateEndHole for blue from a hole other than the start. */
  lemma EndStepBlue(start: int, current: int, player: int)
    requires 0 <= current < TOTAL_HOLES && current != start
    ensures EndStep(start, current, Blue, player) == if current == TOTAL_HOLES - 1 then 0 else current + 1
  {
  }

  /** calculateEndHole skips a hole on its first step (the current hole is then the
      start), and then walks one hole per seed. */
  lemma {:induction false} EndHoleBlueSteps(start: int, n: nat, player: int)
    requires 0 <= start < TOTAL_HOLES && 1 <= n <= 14
    ensures EndHole(start, n, Blue, player) == if start + n + 1 < TOTAL_HOLES then start + n + 1 else start + n + 1 - TOTAL_HOLES
  {
    if n == 1 {
      assert EndHole(start, n, Blue, player) == EndStep(start, start, Blue, player);
    } else {
      EndHoleBlueSteps(start, n - 1, player);
      EndStepBlue(start, EndHole(start, n - 1, Blue, player), player);
    }
  }

  /** Fewer than 15 blue seeds go round the ring at most once, one hole each. */
  lemma BlueLandingShort(start: int, n: nat)
    requires 0 <= start < TOTAL_HOLES && 1 <= n <= 14
    ensures (BlueLanding(start, n) + 1) % TOTAL_HOLES == if start + n + 1 < TOTAL_HOLES then start + n + 1 else start + n + 1 - TOTAL_HOLES
  {
    assert (n - 1) % 15 == n - 1;
    if start + n < TOTAL_HOLES {
      assert BlueLanding(start, n) == start + n;
    } else {
      assert BlueLanding(start, n) == start + n - TOTAL_HOLES;
    }
  }

  /** So for 1..14 blue seeds calculateEndHole names the hole just after the one where
      sowBlueSeeds puts the last seed. */
  lemma EndHoleBlue(start: int, n: nat, player: int)
    requires 0 <= start < TOTAL_HOLES && 1 <= n <= 14
    ensures EndHole(start, n, Blue, player) == (BlueLanding(start, n) + 1) % TOTAL_HOLES
  {
    EndHoleBlueSteps(start, n, player);
    BlueLandingShort(start, n);
  }

  /** One step of calculateEndHole for red that lands on one of the player's holes
      and so steps over it. */
  lemma EndStepRedOwn(start: int, current: int, player: int)
    requires 0 <= current && current + 2 < TOTAL_HOLES && current != start
    requires (current + 1) % 2 == Parity(player)
    ensures EndStep(start, current, Red, player) == current + 2
  {
    assert current + 1 in PlayerHoles(player);
  }

  /** The first step of calculateEndHole for red from the player's own row: it skips
      the start's neighbour and then steps over the player's next hole. */
  lemma EndStepRedFirst(start: int, player: int)
    requires 0 <= start && start + 3 < TOTAL_HOLES && start % 2 == Parity(player)
    ensures EndStep(start, start, Red, player) == start + 3
  {
    assert start + 2 in PlayerHoles(player);
  }

  /** Moving by an even number of holes keeps the parity. */
  lemma EvenShift(start: int, n: nat)
    requires 0 <= start
    ensures (start + 2 * n) % 2 == start % 2
  {
  }

  /** For red seeds from a hole of the player's own row, while the count stays below
      hole 16, calculateEndHole skips the start's neighbour, then steps over every hole
      of the player's row. */
  lemma {:induction false} EndHoleRedSteps(start: int, n: nat, player: int)
    requires 0 <= start && start % 2 == Parity(player) && 1 <= n && start + 2 * n + 1 < TOTAL_HOLES
    ensures EndHole(start, n, Red, player) == start + 2 * n + 1
  {
    if n == 1 {
      EndStepRedFirst(start, player);
      assert EndHole(start, n, Red, player) == EndStep(start, EndHole(start, 0, Red, player), Red, player);
    } else {
      EndHoleRedSteps(start, n - 1, player);
      EvenShift(start, n);
      EndStepRedOwn(start, start + 2 * n - 1, player);
      assert EndHole(start, n, Red, player) == EndStep(start, start + 2 * n - 1, Red, player);
    }
  }

  /** So calculateEndHole names the hole two past the one where sowRedSeeds puts the
      last seed. */
  lemma EndHoleRed(start: int, n: nat, player: int)
    requires 0 <= start && start % 2 == Parity(player) && 1 <= n && start + 2 * n + 1 < TOTAL_HOLES
    ensures EndHole(start, n, Red, player) == RedLanding(start, n) + 2
  {
    EndHoleRedSteps(start, n, player);
    assert RedLanding(start, n) == start + 2 * n - 1;
  }

  /** evaluateMoveQuality: 1000 when the end hole computed on the manager's own board
      holds 1 or 2 seeds, else 0. */
  function Quality(live: BoardState, m: Move, player: int): (q: int)
    ensures q == 0 || q == 1000
  {
    if !(0 <= m.hole < TOTAL_HOLES) then 0
    else
      EndHoleRange(m.hole, SeedsOf(live, m), m.color, player);
      var size := live.holes[EndHole(m.hole, SeedsOf(live, m), m.color, player)].Size();
      if size == 1 || size == 2 then 1000 else 0
  }

  /** A comparator with the boards it reads. ByQuality reads the manager's own board
      for the quality and the listed board for the tie-break. */
  datatype Order =
    | CaptureOrder(board: BoardState, player: int)
    | SharedCaptureOrder(board: BoardState)
    | CountOrder(board: BoardState)
    | QualityOrder(live: BoardState, board: BoardState, player: int)

  /** The comparator of getAllPossibleMoves: negative when m1 goes first. */
  function Cmp(o: Order, m1: Move, m2: Move): int
  {
    match o
    case CaptureOrder(b, p) =>
      var c1 := Captured(b.(current := p), m1);
      var c2 := Captured(b.(current := p), m2);
      if c1 != c2 then Compare(c2, c1) else Compare(SeedsOf(b, m1), SeedsOf(b, m2))
    case SharedCaptureOrder(b) =>
      var c1 := Captured(b, m1);
      var c2 := Captured(AfterSimulation(b, m1), m2);
      if c1 != c2 then Compare(c2, c1) else Compare(SeedsOf(b, m1), SeedsOf(b, m2))
    case CountOrder(b) =>
      Compare(SeedsOf(b, m2), SeedsOf(b, m1))
    case QualityOrder(live, b, p) =>
      var q := Compare(Quality(live, m2, p), Quality(live, m1, p));
      if q != 0 then q else Compare(SeedsOf(b, m1), SeedsOf(b, m2))
  }

  /** Stable insertion: x goes before the first element it compares strictly below. */
  function Insert(o: Order, x: Move, s: seq<Move>): seq<Move>
  {
    if s == [] then [x]
    else if Cmp(o, x, s[0]) < 0 then [x] + s
    else [s[0]] + Insert(o, x, s[1..])
  }

  /** List.sort, as a stable insertion sort. */
  function SortMoves(o: Order, s: seq<Move>): seq<Move>
  {
    if s == [] then [] else Insert(o, s[|s| - 1], SortMoves(o, s[..|s| - 1]))
  }

  lemma {:induction false} InsertPermutes(o: Order, x: Move, s: seq<Move>)
    ensures multiset(Insert(o, x, s)) == multiset(s) + multiset{x}
  {
    if s != [] && Cmp(o, x, s[0]) >= 0 {
      var r := Insert(o, x, s[1..]);
      assert Insert(o, x, s) == [s[0]] + r;
      InsertPermutes(o, x, s[1..]);
      assert s == [s[0]] + s[1..];
      assert multiset(s) == multiset{s[0]} + multiset(s[1..]);
    }
  }

  /** The sort keeps every move and adds none. */
  lemma {:induction false} SortPermutes(o: Order, s: seq<Move>)
    ensures multiset(SortMoves(o, s)) == multiset(s)
  {
    if s != [] {
      SortPermutes(o, s[..|s| - 1]);
      InsertPermutes(o, s[|s| - 1], SortMoves(o, s[..|s| - 1]));
      assert s == s[..|s| - 1] + [s[|s| - 1]];
    }
  }

  /** A key whose lexicographic order the consistent comparators follow. */
  datatype Rank = Rank(major: int, minor: int)

  predicate RankLess(a: Rank, b: Rank)
  {
    a.major < b.major || (a.major == b.major && a.minor < b.minor)
  }

  /** Every comparator but AIManagerTest's compares moves by a fixed key: more
      captured seeds (or more seeds, or higher quality) first, then the tie-break. */
  predicate Consistent(o: Order)
  {
    !o.SharedCaptureOrder?
  }

  function RankOf(o: Order, m: Move): Rank
    requires Consistent(o)
  {
    match o
    case CaptureOrder(b, p) => Rank(-(Captured(b.(current := p), m) as int), SeedsOf(b, m))
    case CountOrder(b) => Rank(-(SeedsOf(b, m) as int), 0)
    case QualityOrder(live, b, p) => Rank(-Quality(live, m, p), SeedsOf(b, m))
  }

  lemma CmpFollowsRank(o: Order, m1: Move, m2: Move)
    requires Consistent(o)
    ensures Cmp(o, m1, m2) < 0 <==> RankLess(RankOf(o, m1), RankOf(o, m2))
  {
  }

  predicate SortedBy(o: Order, s: seq<Move>)
    requires Consistent(o)
  {
    forall i, j :: 0 <= i < j < |s| ==> !RankLess(RankOf(o, s[j]), RankOf(o, s[i]))
  }

  lemma {:induction false} InsertSorted(o: Order, x: Move, s: seq<Move>)
    requires Consistent(o) && SortedBy(o, s)
    ensures SortedBy(o, Insert(o, x, s))
  {
    if s == [] {
    } else if Cmp(o, x, s[0]) < 0 {
      CmpFollowsRank(o, x, s[0]);
    } else {
      var r := Insert(o, x, s[1..]);
      assert Insert(o, x, s) == [s[0]] + r;
      assert SortedBy(o, s[1..]);
      InsertSorted(o, x, s[1..]);
      InsertAboveHead(o, x, s);
      ConsSorted(o, s[0], r);
    }
  }

  /** What is inserted after the head of a sorted list ranks no lower than the head. */
  lemma InsertAboveHead(o: Order, x: Move, s: seq<Move>)
    requires Consistent(o) && SortedBy(o, s) && s != [] && Cmp(o, x, s[0]) >= 0
    ensures forall k :: 0 <= k < |Insert(o, x, s[1..])| ==>
      !RankLess(RankOf(o, Insert(o, x, s[1..])[k]), RankOf(o, s[0]))
  {
    CmpFollowsRank(o, x, s[0]);
    InsertPermutes(o, x, s[1..]);
    var r := Insert(o, x, s[1..]);
    forall k | 0 <= k < |r|
      ensures !RankLess(RankOf(o, r[k]), RankOf(o, s[0]))
    {
      assert r[k] in multiset(r);
      if r[k] != x {
        assert r[k] in multiset(s[1..]);
        var j :| 0 <= j < |s[1..]| && s[1..][j] == r[k];
        assert s[j + 1] == r[k];
      }
    }
  }

  /** A head ranking no lower than anything after it keeps a sorted list sorted. */
  lemma ConsSorted(o: Order, y: Move, r: seq<Move>)
    requires Consistent(o) && SortedBy(o, r)
    requires forall k :: 0 <= k < |r| ==> !RankLess(RankOf(o, r[k]), RankOf(o, y))
    ensures SortedBy(o, [y] + r)
  {
    var t := [y] + r;
    forall i, j | 0 <= i < j < |t|
      ensures !RankLess(RankOf(o, t[j]), RankOf(o, t[i]))
    {
      assert t[j] == r[j - 1];
      if i > 0 {
        assert t[i] == r[i - 1];
      }
    }
  }

  /** Under every comparator but AIManagerTest's, the sorted list is ordered by the
      comparator's key. */
  lemma {:induction false} SortOrdered(o: Order, s: seq<Move>)
    requires Consistent(o)
    ensures SortedBy(o, SortMoves(o, s))
  {
    if s != [] {
      SortOrdered(o, s[..|s| - 1]);
      InsertSorted(o, s[|s| - 1], SortMoves(o, s[..|s| - 1]));
    }
  }

  /** The comparator a variant's getAllPossibleMoves(player, board) uses. */
  function OrderFor(k: Kind, live: BoardState, b: BoardState, player: int): Order
  {
    match OrderingOf(k)
    case ByCapture => CaptureOrder(b, player)
    case ByCaptureShared => SharedCaptureOrder(b)
    case ByCount => CountOrder(b)
    case ByQuality => QualityOrder(live, b, player)
  }

  /** getAllPossibleMoves(player, board) */
  function PossibleMoves(k: Kind, live: BoardState, b: BoardState, player: int): seq<Move>
  {
    SortMoves(OrderFor(k, live, b, player), Candidates(b, player))
  }

  /** The possible moves are exactly the owned holes' present colours, whatever the order. */
  lemma PossibleMovesExact(k: Kind, live: BoardState, b: BoardState, player: int, m: Move)
    ensures m in PossibleMoves(k, live, b, player) <==> Owned(m, player) && SeedsOf(b, m) > 0
  {
    SortPermutes(OrderFor(k, live, b, player), Candidates(b, player));
    CandidatesExact(b, player, m);
    assert m in PossibleMoves(k, live, b, player) <==> m in multiset(Candidates(b, player));
  }

  // ---------------------------------------------------------------------------
  // Minimax

  /** The search context: the variant, the manager's own board, and
      evaluateBoardHeuristicUltimate (not shown in the repository), a parameter. */
  datatype Engine = Engine(kind: Kind, live: BoardState, heuristic: BoardState -> int)

  /** A value, the wall-clock TimeLimitExceededException, or an escaping
      IllegalArgumentException from a rejected sowing. */
  datatype Outcome = Value(v: int) | TimedOut | Thrown

  /** An outcome with the number of time checks still allowed to pass. The clock
      only moves forward, so the limit is exceeded from some check on: `ticks`
      counts the checks before that one. */
  datatype Eval = Eval(outcome: Outcome, ticks: nat)

  /** The leaf value: evaluateBoardHeuristicUltimate for Ultimate, evaluateBoard otherwise. */
  function Leaf(e: Engine, b: BoardState): int
  {
    if e.kind == Ultimate then e.heuristic(b) else Evaluate(b)
  }

  /** The moves a node tries, grouped: a `break` leaves only the current group. */
  function Groups(e: Engine, b: BoardState, isMax: bool): seq<seq<Move>>
  {
    var side := Side(e.kind, isMax);
    if HoleByHole(e.kind) then
      var row := PlayerHoles(side);
      seq(PLAYER_HOLES, i requires 0 <= i < PLAYER_HOLES => [Move(row[i], Red), Move(row[i], Blue)])
    else [PossibleMoves(e.kind, e.live, b, side)]
  }

  lemma GroupsOwned(e: Engine, b: BoardState, isMax: bool)
    ensures forall g, m :: g in Groups(e, b, isMax) && m in g ==> Owned(m, Side(e.kind, isMax))
  {
    var side := Side(e.kind, isMax);
    forall g, m | g in Groups(e, b, isMax) && m in g
      ensures Owned(m, side)
    {
      if !HoleByHole(e.kind) {
        PossibleMovesExact(e.kind, e.live, b, side, m);
      }
    }
  }

  /** What a child move gives: skipped (a caught rejection), an escaping exception,
      an immediate win, or a board to recurse into. */
  datatype Child = Skip | Crash | Win(v: int) | Node(board: BoardState)

  /** Copy, force the player (Ultimate), sow, switch player, then the win test. */
  function ChildOf(e: Engine, b: BoardState, m: Move, isMax: bool): Child
  {
    var side := Side(e.kind, isMax);
    var start := if Forces(e.kind) then b.(current := side) else b;
    match Sow(start, m.hole, m.color)
    case Rejected(_) => if Forces(e.kind) then Skip else Crash
    case Sown(s) =>
      var c := SwitchPlayer(s.after);
      var winner := if isMax then 1 else 2;
      var sentinel := if isMax then MAX_VALUE else MIN_VALUE;
      match WinCheckOf(e.kind)
      case NoWinCheck => Node(c)
      case StatusWinner =>
        var st := CheckStatus(c);
        if st.status.winner == (if isMax then Player1 else Player2) then Win(sentinel) else Node(st.after)
      case WinningState =>
        if IsWinningState(c, winner) then Win(sentinel) else Node(c)
  }

  /** The loop variables of a node: maxEval or minEval, alpha, beta, and the clock. */
  datatype Run = Run(acc: int, alpha: int, beta: int, ticks: nat)

  /** A group either ends (normally or by the cutoff `break`) or the node returns. */
  datatype Scan = Going(run: Run) | Halted(eval: Eval)

  /** Folds a child's value into the loop variables. */
  function Absorb(r: Run, x: int, isMax: bool, ticks: nat): Run
  {
    if isMax then Run(Max(r.acc, x), Max(r.alpha, x), r.beta, ticks)
    else Run(Min(r.acc, x), r.alpha, Min(r.beta, x), ticks)
  }

  /** minimax(board, depth, alpha, beta, isMaximizing) */
  function Minimax(e: Engine, b: BoardState, depth: nat, alpha: int, beta: int, isMax: bool, ticks: nat): Eval
    decreases depth, 2, 0
  {
    if depth == 0 then Eval(Value(Leaf(e, b)), ticks)
    else
      var st := CheckStatus(b);
      if st.status.isOver then Eval(Value(Leaf(e, st.after)), ticks)
      else if Timed(e.kind) && ticks == 0 then Eval(TimedOut, 0)
      else
        var left := if Timed(e.kind) then ticks - 1 else ticks;
        var init := Run(if isMax then MIN_VALUE else MAX_VALUE, alpha, beta, left);
        match FoldGroups(e, b, depth, Groups(e, b, isMax), isMax, init)
        case Going(r) => Eval(Value(r.acc), r.ticks)
        case Halted(ev) => ev
  }

  function FoldGroups(e: Engine, b: BoardState, depth: nat, groups: seq<seq<Move>>, isMax: bool, r: Run): Scan
    requires depth > 0
    decreases depth, 1, |groups|
  {
    if groups == [] then Going(r)
    else
      match FoldMoves(e, b, depth, groups[0], isMax, r)
      case Halted(ev) => Halted(ev)
      case Going(next) => FoldGroups(e, b, depth, groups[1..], isMax, next)
  }

  function FoldMoves(e: Engine, b: BoardState, depth: nat, moves: seq<Move>, isMax: bool, r: Run): Scan
    requires depth > 0
    decreases depth, 0, |moves|
  {
    if moves == [] then Going(r)
    else if SeedsOf(b, moves[0]) == 0 then FoldMoves(e, b, depth, moves[1..], isMax, r)
    else
      match ChildOf(e, b, moves[0], isMax)
      case Skip => FoldMoves(e, b, depth, moves[1..], isMax, r)
      case Crash => Halted(Eval(Thrown, r.ticks))
      case Win(v) => Halted(Eval(Value(v), r.ticks))
      case Node(c) =>
        var ev := Minimax(e, c, depth - 1, r.alpha, r.beta, !isMax, r.ticks);
        if !ev.outcome.Value? then Halted(ev)
        else
          var next := Absorb(r, ev.outcome.v, isMax, ev.ticks);
          if next.alpha >= next.beta then Going(next)
          else FoldMoves(e, b, depth, moves[1..], isMax, next)
  }

  // ---------------------------------------------------------------------------
  // Properties of minimax

  /** A move that leads to a searched child folds the child's value in and goes on
      with the rest, unless alpha >= beta cuts the siblings off. */
  lemma FoldNode(e: Engine, b: BoardState, depth: nat, moves: seq<Move>, isMax: bool, r: Run, c: BoardState)
    requires depth > 0 && moves != [] && SeedsOf(b, moves[0]) > 0
    requires ChildOf(e, b, moves[0], isMax) == Node(c)
    ensures var ev := Minimax(e, c, depth - 1, r.alpha, r.beta, !isMax, r.ticks);
      FoldMoves(e, b, depth, moves, isMax, r) ==
        if !ev.outcome.Value? then Halted(ev)
        else if Absorb(r, ev.outcome.v, isMax, ev.ticks).alpha >= Absorb(r, ev.outcome.v, isMax, ev.ticks).beta then Going(Absorb(r, ev.outcome.v, isMax, ev.ticks))
        else FoldMoves(e, b, depth, moves[1..], isMax, Absorb(r, ev.outcome.v, isMax, ev.ticks))
  {
  }

  /** A leaf or a finished game is evaluated before the clock is looked at, so it
      never times out; a finished game is evaluated on the board checkGameStatus left. */
  lemma LeavesNeverAbort(e: Engine, b: BoardState, depth: nat, alpha: int, beta: int, isMax: bool, ticks: nat)
    requires depth == 0 || CheckStatus(b).status.isOver
    ensures Minimax(e, b, depth, alpha, beta, isMax, ticks) ==
      Eval(Value(Leaf(e, if depth == 0 then b else CheckStatus(b).after)), ticks)
  {
  }

  /** The clock only runs down, and a variant without the time limit never times out
      nor uses the clock. */
  lemma {:induction false} MinimaxClock(e: Engine, b: BoardState, depth: nat, alpha: int, beta: int, isMax: bool, ticks: nat)
    ensures Minimax(e, b, depth, alpha, beta, isMax, ticks).ticks <= ticks
    ensures !Timed(e.kind) ==> Minimax(e, b, depth, alpha, beta, isMax, ticks).outcome != TimedOut
    ensures !Timed(e.kind) ==> Minimax(e, b, depth, alpha, beta, isMax, ticks).ticks == ticks
    decreases depth, 2, 0, 0
  {
    if depth > 0 && !CheckStatus(b).status.isOver && !(Timed(e.kind) && ticks == 0) {
      var left := if Timed(e.kind) then ticks - 1 else ticks;
      var init := Run(if isMax then MIN_VALUE else MAX_VALUE, alpha, beta, left);
      GroupsClock(e, b, depth, Groups(e, b, isMax), isMax, init);
    }
  }

  predicate ClockKept(k: Kind, s: Scan, ticks: nat)
  {
    match s
    case Going(r) => r.ticks <= ticks && (!Timed(k) ==> r.ticks == ticks)
    case Halted(ev) => ev.ticks <= ticks && (!Timed(k) ==> ev.ticks == ticks && ev.outcome != TimedOut)
  }

  lemma {:induction false} GroupsClock(e: Engine, b: BoardState, depth: nat, groups: seq<seq<Move>>, isMax: bool, r: Run)
    requires depth > 0
    ensures ClockKept(e.kind, FoldGroups(e, b, depth, groups, isMax, r), r.ticks)
    decreases depth, 1, |groups|, 0
  {
    if groups != [] {
      MovesClock(e, b, depth, groups[0], isMax, r);
      match FoldMoves(e, b, depth, groups[0], isMax, r)
      case Halted(_) =>
      case Going(next) => GroupsClock(e, b, depth, groups[1..], isMax, next);
    }
  }

  lemma {:induction false} MovesClock(e: Engine, b: BoardState, depth: nat, moves: seq<Move>, isMax: bool, r: Run)
    requires depth > 0
    ensures ClockKept(e.kind, FoldMoves(e, b, depth, moves, isMax, r), r.ticks)
    decreases depth, 0, |moves|, 1
  {
    if moves != [] {
      if SeedsOf(b, moves[0]) == 0 || ChildOf(e, b, moves[0], isMax).Skip? {
        MovesClock(e, b, depth, moves[1..], isMax, r);
      } else if ChildOf(e, b, moves[0], isMax).Node? {
        NodeClock(e, b, depth, moves, isMax, r, ChildOf(e, b, moves[0], isMax).board);
      }
    }
  }

  /** The step of MovesClock that recurses into a child board. */
  lemma {:induction false} NodeClock(e: Engine, b: BoardState, depth: nat, moves: seq<Move>, isMax: bool, r: Run, c: BoardState)
    requires depth > 0 && moves != [] && SeedsOf(b, moves[0]) > 0
    requires ChildOf(e, b, moves[0], isMax) == Node(c)
    ensures ClockKept(e.kind, FoldMoves(e, b, depth, moves, isMax, r), r.ticks)
    decreases depth, 0, |moves|, 0
  {
    FoldNode(e, b, depth, moves, isMax, r, c);
    MinimaxClock(e, c, depth - 1, r.alpha, r.beta, !isMax, r.ticks);
    var ev := Minimax(e, c, depth - 1, r.alpha, r.beta, !isMax, r.ticks);
    if ev.outcome.Value? {
      var next := Absorb(r, ev.outcome.v, isMax, ev.ticks);
      if next.alpha < next.beta {
        MovesClock(e, b, depth, moves[1..], isMax, next);
      }
    }
  }

  /** The player to move on a node's board is the one it expands (or the variant
      forces it): then no sowing is rejected. */
  predicate InTurn(e: Engine, b: BoardState, isMax: bool)
  {
    Forces(e.kind) || b.current == Side(e.kind, isMax)
  }

  /** A move from the expanding side's row that holds the colour is legal on a board
      in turn; the child is in turn for the next level. */
  lemma ChildInTurn(e: Engine, b: BoardState, m: Move, isMax: bool)
    requires InTurn(e, b, isMax) && Owned(m, Side(e.kind, isMax)) && SeedsOf(b, m) > 0
    ensures !ChildOf(e, b, m, isMax).Crash? && !ChildOf(e, b, m, isMax).Skip?
    ensures ChildOf(e, b, m, isMax).Node? ==> InTurn(e, ChildOf(e, b, m, isMax).board, !isMax)
  {
  }

  /** On a board in turn, no IllegalArgumentException escapes minimax: the exception
      paths of New, Test, Alex and Nolan are never taken. */
  lemma {:induction false} MinimaxNeverThrows(e: Engine, b: BoardState, depth: nat, alpha: int, beta: int, isMax: bool, ticks: nat)
    requires InTurn(e, b, isMax)
    ensures Minimax(e, b, depth, alpha, beta, isMax, ticks).outcome != Thrown
    decreases depth, 2, 0, 0
  {
    if depth > 0 && !CheckStatus(b).status.isOver && !(Timed(e.kind) && ticks == 0) {
      var left := if Timed(e.kind) then ticks - 1 else ticks;
      var init := Run(if isMax then MIN_VALUE else MAX_VALUE, alpha, beta, left);
      GroupsOwned(e, b, isMax);
      GroupsNeverThrow(e, b, depth, Groups(e, b, isMax), isMax, init);
    }
  }

  predicate NotThrown(s: Scan)
  {
    s.Halted? ==> s.eval.outcome != Thrown
  }

  lemma {:induction false} GroupsNeverThrow(e: Engine, b: BoardState, depth: nat, groups: seq<seq<Move>>, isMax: bool, r: Run)
    requires depth > 0 && InTurn(e, b, isMax)
    requires forall g, m :: g in groups && m in g ==> Owned(m, Side(e.kind, isMax))
    ensures NotThrown(FoldGroups(e, b, depth, groups, isMax, r))
    decreases depth, 1, |groups|, 0
  {
    if groups != [] {
      MovesNeverThrow(e, b, depth, groups[0], isMax, r);
      match FoldMoves(e, b, depth, groups[0], isMax, r)
      case Halted(_) =>
      case Going(next) =>
        assert forall g :: g in groups[1..] ==> g in groups;
        GroupsNeverThrow(e, b, depth, groups[1..], isMax, next);
    }
  }

  lemma {:induction false} MovesNeverThrow(e: Engine, b: BoardState, depth: nat, moves: seq<Move>, isMax: bool, r: Run)
    requires depth > 0 && InTurn(e, b, isMax)
    requires forall m :: m in moves ==> Owned(m, Side(e.kind, isMax))
    ensures NotThrown(FoldMoves(e, b, depth, moves, isMax, r))
    decreases depth, 0, |moves|, 1
  {
    if moves != [] {
      assert forall m :: m in moves[1..] ==> m in moves;
      if SeedsOf(b, moves[0]) == 0 {
        MovesNeverThrow(e, b, depth, moves[1..], isMax, r);
      } else {
        ChildInTurn(e, b, moves[0], isMax);
        if ChildOf(e, b, moves[0], isMax).Node? {
          NodeNeverThrows(e, b, depth, moves, isMax, r, ChildOf(e, b, moves[0], isMax).board);
        }
      }
    }
  }

  /** The step of MovesNeverThrow that recurses into a child board. */
  lemma {:induction false} NodeNeverThrows(e: Engine, b: BoardState, depth: nat, moves: seq<Move>, isMax: bool, r: Run, c: BoardState)
    requires depth > 0 && moves != [] && SeedsOf(b, moves[0]) > 0
    requires forall m :: m in moves[1..] ==> Owned(m, Side(e.kind, isMax))
    requires InTurn(e, b, isMax)
    requires ChildOf(e, b, moves[0], isMax) == Node(c) && InTurn(e, c, !isMax)
    ensures NotThrown(FoldMoves(e, b, depth, moves, isMax, r))
    decreases depth, 0, |moves|, 0
  {
    FoldNode(e, b, depth, moves, isMax, r, c);
    MinimaxNeverThrows(e, c, depth - 1, r.alpha, r.beta, !isMax, r.ticks);
    var ev := Minimax(e, c, depth - 1, r.alpha, r.beta, !isMax, r.ticks);
    if ev.outcome.Value? {
      var next := Absorb(r, ev.outcome.v, isMax, ev.ticks);
      if next.alpha < next.beta {
        MovesNeverThrow(e, b, depth, moves[1..], isMax, next);
      }
    }
  }

  lemma {:induction false} EmptyMovesFold(e: Engine, b: BoardState, depth: nat, moves: seq<Move>, isMax: bool, r: Run)
    requires depth > 0
    requires forall m :: m in moves ==> SeedsOf(b, m) == 0
    ensures FoldMoves(e, b, depth, moves, isMax, r) == Going(r)
  {
    if moves != [] {
      assert moves[0] in moves;
      assert forall m :: m in moves[1..] ==> m in moves;
      EmptyMovesFold(e, b, depth, moves[1..], isMax, r);
    }
  }

  lemma {:induction false} EmptyGroupsFold(e: Engine, b: BoardState, depth: nat, groups: seq<seq<Move>>, isMax: bool, r: Run)
    requires depth > 0
    requires forall g, m :: g in groups && m in g ==> SeedsOf(b, m) == 0
    ensures FoldGroups(e, b, depth, groups, isMax, r) == Going(r)
  {
    if groups != [] {
      assert groups[0] in groups;
      EmptyMovesFold(e, b, depth, groups[0], isMax, r);
      assert forall g :: g in groups[1..] ==> g in groups;
      EmptyGroupsFold(e, b, depth, groups[1..], isMax, r);
    }
  }

  /** A colour present in one of the player's holes is a move of that player. */
  lemma OwnedSeedsMove(b: BoardState, m: Move, player: int)
    ensures Owned(m, player) && SeedsOf(b, m) > 0 ==> HasMove(b, player)
  {
    if Owned(m, player) && SeedsOf(b, m) > 0 {
      assert b.holes[m.hole].Size() > 0;
    }
  }

  /** A node that expands no child returns its initial sentinel: Integer.MIN_VALUE
      when maximizing, Integer.MAX_VALUE when minimizing. */
  lemma NoChildSentinel(e: Engine, b: BoardState, depth: nat, alpha: int, beta: int, isMax: bool, ticks: nat)
    requires depth > 0 && !CheckStatus(b).status.isOver && !(Timed(e.kind) && ticks == 0)
    requires !HasMove(b, Side(e.kind, isMax))
    ensures Minimax(e, b, depth, alpha, beta, isMax, ticks).outcome == Value(if isMax then MIN_VALUE else MAX_VALUE)
  {
    var side := Side(e.kind, isMax);
    var left := if Timed(e.kind) then ticks - 1 else ticks;
    var init := Run(if isMax then MIN_VALUE else MAX_VALUE, alpha, beta, left);
    GroupsOwned(e, b, isMax);
    forall g, m | g in Groups(e, b, isMax) && m in g
      ensures SeedsOf(b, m) == 0
    {
      OwnedSeedsMove(b, m, side);
    }
    EmptyGroupsFold(e, b, depth, Groups(e, b, isMax), isMax, init);
  }

  /** Once a child's value brings alpha to or past beta, the rest of the group is
      not looked at. */
  lemma CutoffSkipsSiblings(e: Engine, b: BoardState, depth: nat, m: Move, rest: seq<Move>, isMax: bool, r: Run)
    requires depth > 0 && SeedsOf(b, m) > 0 && ChildOf(e, b, m, isMax).Node?
    requires var ev := Minimax(e, ChildOf(e, b, m, isMax).board, depth - 1, r.alpha, r.beta, !isMax, r.ticks);
      ev.outcome.Value? && Absorb(r, ev.outcome.v, isMax, ev.ticks).alpha >= Absorb(r, ev.outcome.v, isMax, ev.ticks).beta
    ensures FoldMoves(e, b, depth, [m] + rest, isMax, r) == FoldMoves(e, b, depth, [m], isMax, r)
    ensures FoldMoves(e, b, depth, [m], isMax, r).Going?
  {
    assert ([m] + rest)[0] == m && ([m] + rest)[1..] == rest;
    assert [m][1..] == [];
  }

  /** A child that passes the variant's win test makes the node return the sentinel
      at once, whatever moves follow. */
  lemma WinReturnsAtOnce(e: Engine, b: BoardState, depth: nat, m: Move, rest: seq<Move>, isMax: bool, r: Run)
    requires depth > 0 && SeedsOf(b, m) > 0 && ChildOf(e, b, m, isMax).Win?
    ensures FoldMoves(e, b, depth, [m] + rest, isMax, r) ==
      Halted(Eval(Value(if isMax then MAX_VALUE else MIN_VALUE), r.ticks))
  {
    assert ([m] + rest)[0] == m;
  }

  // ---------------------------------------------------------------------------
  // The root: findBestMove and findBestMoveOld

  /** The random fallback's value: Integer.MIN_VALUE for Player 1, Integer.MAX_VALUE otherwise. */
  function Initial(player: int): int
  {
    if player == 1 then MIN_VALUE else MAX_VALUE
  }

  /** The root replaces its move only on a strictly better value for the mover. */
  predicate Better(player: int, x: int, y: int)
  {
    (player == 1 && x > y) || (player == 2 && x < y)
  }

  /** The root's loop variables. */
  datatype Root = Root(alpha: int, beta: int, best: Move, bestValue: int, ticks: nat)

  /** The chosen move with its value, or an escaping exception. */
  datatype Found = Found(move: Move, value: int) | Crashed

  datatype RootScan = Scanning(root: Root) | Returned(found: Found)

  function Update(r: Root, m: Move, x: int, player: int, ticks: nat): Root
  {
    var better := Better(player, x, r.bestValue);
    var best := if better then m else r.best;
    var bestValue := if better then x else r.bestValue;
    if player == 1 then Root(Max(r.alpha, bestValue), r.beta, best, bestValue, ticks)
    else Root(r.alpha, Min(r.beta, bestValue), best, bestValue, ticks)
  }

  function RootMoves(e: Engine, b: BoardState, depth: nat, moves: seq<Move>, player: int, r: Root): RootScan
  {
    if moves == [] then Scanning(r)
    else if SeedsOf(b, moves[0]) == 0 then RootMoves(e, b, depth, moves[1..], player, r)
    else
      match Sow(b, moves[0].hole, moves[0].color)
      case Rejected(_) => Returned(Crashed)
      case Sown(s) =>
        var ev := Minimax(e, s.after, depth, r.alpha, r.beta, player == 2, r.ticks);
        match ev.outcome
        case TimedOut => Returned(Found(r.best, r.bestValue))
        case Thrown => Returned(Crashed)
        case Value(x) =>
          var next := Update(r, moves[0], x, player, ev.ticks);
          if next.alpha >= next.beta then Scanning(next)
          else RootMoves(e, b, depth, moves[1..], player, next)
  }

  function RootGroups(e: Engine, b: BoardState, depth: nat, groups: seq<seq<Move>>, player: int, r: Root): RootScan
  {
    if groups == [] then Scanning(r)
    else
      match RootMoves(e, b, depth, groups[0], player, r)
      case Returned(f) => Returned(f)
      case Scanning(next) => RootGroups(e, b, depth, groups[1..], player, next)
  }

  function Finish(s: RootScan): Found
  {
    match s
    case Scanning(r) => Found(r.best, r.bestValue)
    case Returned(f) => f
  }

  /** findBestMove: the sorted possible moves at the optimized depth, from the random
      fallback. */
  function FindBestMove(e: Engine, b: BoardState, fallback: Move, ticks: nat): Found
  {
    var player := b.current;
    var moves := PossibleMoves(e.kind, e.live, b, player);
    var start := Root(MIN_VALUE, MAX_VALUE, fallback, Initial(player), ticks);
    Finish(RootGroups(e, b, DepthFor(e.kind, |moves|), [moves], player, start))
  }

  /** The per-hole groups of findBestMoveOld: colours in enum order within a hole. */
  function HoleGroups(player: int): seq<seq<Move>>
  {
    var row := PlayerHoles(player);
    seq(PLAYER_HOLES, i requires 0 <= i < PLAYER_HOLES => [Move(row[i], Red), Move(row[i], Blue)])
  }

  /** findBestMoveOld (Nolan): holes then colours, fixed depth 5, break per hole. */
  function FindBestMoveOld(e: Engine, b: BoardState, fallback: Move, ticks: nat): Found
  {
    var player := b.current;
    var start := Root(MIN_VALUE, MAX_VALUE, fallback, Initial(player), ticks);
    Finish(RootGroups(e, b, INITIAL_DEPTH, HoleGroups(player), player, start))
  }

  /** What the root returns once it has `moves` left in the current group and
      `groups` after it. */
  function Resume(e: Engine, b: BoardState, depth: nat, moves: seq<Move>, groups: seq<seq<Move>>, player: int, r: Root): Found
  {
    match RootMoves(e, b, depth, moves, player, r)
    case Returned(f) => f
    case Scanning(next) => Finish(RootGroups(e, b, depth, groups, player, next))
  }

  /** Scanning a list of groups is scanning its first group and resuming with the rest. */
  lemma ResumeFirst(e: Engine, b: BoardState, depth: nat, groups: seq<seq<Move>>, player: int, r: Root)
    requires groups != []
    ensures Finish(RootGroups(e, b, depth, groups, player, r)) == Resume(e, b, depth, groups[0], groups[1..], player, r)
  {
  }

  /** A move with no seeds of its colour is passed over at the root. */
  lemma ResumeSkip(e: Engine, b: BoardState, depth: nat, moves: seq<Move>, groups: seq<seq<Move>>, player: int, r: Root)
    requires moves != [] && SeedsOf(b, moves[0]) == 0
    ensures Resume(e, b, depth, moves, groups, player, r) == Resume(e, b, depth, moves[1..], groups, player, r)
  {
  }

  /** A move searched to a value updates the root, and alpha >= beta ends the group. */
  lemma ResumeValue(e: Engine, b: BoardState, depth: nat, moves: seq<Move>, groups: seq<seq<Move>>, player: int, r: Root)
    requires moves != [] && SeedsOf(b, moves[0]) > 0 && Sow(b, moves[0].hole, moves[0].color).Sown?
    requires Minimax(e, Sow(b, moves[0].hole, moves[0].color).sowing.after, depth, r.alpha, r.beta, player == 2, r.ticks).outcome.Value?
    ensures var ev := Minimax(e, Sow(b, moves[0].hole, moves[0].color).sowing.after, depth, r.alpha, r.beta, player == 2, r.ticks);
      var next := Update(r, moves[0], ev.outcome.v, player, ev.ticks);
      Resume(e, b, depth, moves, groups, player, r) ==
        if next.alpha >= next.beta then Finish(RootGroups(e, b, depth, groups, player, next))
        else Resume(e, b, depth, moves[1..], groups, player, next)
  {
  }

  /** The root keeps the fallback with its sentinel value, or holds a legal move whose
      value is strictly better than the sentinel. */
  predicate RootInv(b: BoardState, player: int, fallback: Move, r: Root)
  {
    (r.best == fallback && r.bestValue == Initial(player))
      || (Legal(b, r.best.hole, r.best.color) && Better(player, r.bestValue, Initial(player)))
  }

  predicate ScanInv(b: BoardState, player: int, fallback: Move, s: RootScan)
  {
    match s
    case Scanning(r) => RootInv(b, player, fallback, r)
    case Returned(f) => f.Found? ==> RootInv(b, player, fallback, Root(0, 0, f.move, f.value, 0))
  }

  lemma {:induction false} RootMovesInv(e: Engine, b: BoardState, depth: nat, moves: seq<Move>, player: int, fallback: Move, r: Root)
    requires RootInv(b, player, fallback, r)
    ensures ScanInv(b, player, fallback, RootMoves(e, b, depth, moves, player, r))
  {
    if moves != [] && SeedsOf(b, moves[0]) == 0 {
      RootMovesInv(e, b, depth, moves[1..], player, fallback, r);
    } else if moves != [] {
      var m := moves[0];
      match Sow(b, m.hole, m.color)
      case Rejected(_) =>
      case Sown(s) =>
        var ev := Minimax(e, s.after, depth, r.alpha, r.beta, player == 2, r.ticks);
        match ev.outcome
        case TimedOut =>
        case Thrown =>
        case Value(x) =>
          var next := Update(r, m, x, player, ev.ticks);
          assert RootInv(b, player, fallback, next);
          if next.alpha < next.beta {
            RootMovesInv(e, b, depth, moves[1..], player, fallback, next);
          }
    }
  }

  lemma {:induction false} RootGroupsInv(e: Engine, b: BoardState, depth: nat, groups: seq<seq<Move>>, player: int, fallback: Move, r: Root)
    requires RootInv(b, player, fallback, r)
    ensures ScanInv(b, player, fallback, RootGroups(e, b, depth, groups, player, r))
  {
    if groups != [] {
      RootMovesInv(e, b, depth, groups[0], player, fallback, r);
      match RootMoves(e, b, depth, groups[0], player, r)
      case Returned(_) =>
      case Scanning(next) => RootGroupsInv(e, b, depth, groups[1..], player, fallback, next);
    }
  }

  /** findBestMove returns the random fallback unless some move's value was strictly
      better than the sentinel, and then a legal move. */
  lemma RootKeepsFallbackUnlessBetter(e: Engine, b: BoardState, fallback: Move, ticks: nat)
    ensures var f := FindBestMove(e, b, fallback, ticks);
      f.Found? ==>
        || (f.move == fallback && f.value == Initial(b.current))
        || (Legal(b, f.move.hole, f.move.color) && Better(b.current, f.value, Initial(b.current)))
  {
    var player := b.current;
    var start := Root(MIN_VALUE, MAX_VALUE, fallback, Initial(player), ticks);
    var moves := PossibleMoves(e.kind, e.live, b, player);
    RootGroupsInv(e, b, DepthFor(e.kind, |moves|), [moves], player, fallback, start);
  }

  /** The same for findBestMoveOld. */
  lemma OldRootKeepsFallbackUnlessBetter(e: Engine, b: BoardState, fallback: Move, ticks: nat)
    ensures var f := FindBestMoveOld(e, b, fallback, ticks);
      f.Found? ==>
        || (f.move == fallback && f.value == Initial(b.current))
        || (Legal(b, f.move.hole, f.move.color) && Better(b.current, f.value, Initial(b.current)))
  {
    var player := b.current;
    var start := Root(MIN_VALUE, MAX_VALUE, fallback, Initial(player), ticks);
    RootGroupsInv(e, b, INITIAL_DEPTH, HoleGroups(player), player, fallback, start);
  }

  // ---------------------------------------------------------------------------
  // Which move the root picks among the branches it completed

  /** One root branch searched to a value: the move, the window and clock it was
      searched with, and the value minimax returned. */
  datatype Branch = Branch(move: Move, alpha: int, beta: int, ticks: nat, value: int)

  /** The branch was really searched: the move has seeds, its sowing succeeds and
      minimax on the resulting board, under the branch's window, returns its value. */
  predicate Searched(e: Engine, b: BoardState, depth: nat, player: int, br: Branch)
  {
    && SeedsOf(b, br.move) > 0
    && Sow(b, br.move.hole, br.move.color).Sown?
    && Minimax(e, Sow(b, br.move.hole, br.move.color).sowing.after, depth, br.alpha, br.beta, player == 2, br.ticks).outcome
       == Value(br.value)
  }

  /** The branches of one group the root completes, in order: it stops after the
      branch that closes the window, and before a branch that times out or throws. */
  function Trail(e: Engine, b: BoardState, depth: nat, moves: seq<Move>, player: int, r: Root): seq<Branch>
  {
    if moves == [] then []
    else if SeedsOf(b, moves[0]) == 0 then Trail(e, b, depth, moves[1..], player, r)
    else
      match Sow(b, moves[0].hole, moves[0].color)
      case Rejected(_) => []
      case Sown(s) =>
        var ev := Minimax(e, s.after, depth, r.alpha, r.beta, player == 2, r.ticks);
        match ev.outcome
        case Value(x) =>
          var next := Update(r, moves[0], x, player, ev.ticks);
          [Branch(moves[0], r.alpha, r.beta, r.ticks, x)]
            + (if next.alpha >= next.beta then [] else Trail(e, b, depth, moves[1..], player, next))
        case _ => []
  }

  /** The completed branches over all groups. */
  function GroupsTrail(e: Engine, b: BoardState, depth: nat, groups: seq<seq<Move>>, player: int, r: Root): seq<Branch>
  {
    if groups == [] then []
    else
      Trail(e, b, depth, groups[0], player, r)
        + match RootMoves(e, b, depth, groups[0], player, r)
          case Returned(_) => []
          case Scanning(next) => GroupsTrail(e, b, depth, groups[1..], player, next)
  }

  /** A reference for the root's choice: walk the completed branches and keep the
      first strictly better value. */
  function Pick(player: int, m: Move, v: int, t: seq<Branch>): (f: Found)
    ensures f.Found?
    decreases t
  {
    if t == [] then Found(m, v)
    else if Better(player, t[0].value, v) then Pick(player, t[0].move, t[0].value, t[1..])
    else Pick(player, m, v, t[1..])
  }

  /** Pick keeps the start exactly when no branch beats it; otherwise it holds the
      first branch whose value no branch beats. */
  lemma {:induction false} PickFirstBest(player: int, m: Move, v: int, t: seq<Branch>)
    ensures var f := Pick(player, m, v, t);
      && !Better(player, v, f.value)
      && (forall i :: 0 <= i < |t| ==> !Better(player, t[i].value, f.value))
      && (f == Found(m, v) <==> forall i :: 0 <= i < |t| ==> !Better(player, t[i].value, v))
      && (f != Found(m, v) ==>
            exists i :: 0 <= i < |t| && t[i].move == f.move && t[i].value == f.value && Better(player, f.value, v)
              && forall j :: 0 <= j < i ==> Better(player, f.value, t[j].value))
    decreases t
  {
    if t != [] {
      var f := Pick(player, m, v, t);
      if Better(player, t[0].value, v) {
        PickFirstBest(player, t[0].move, t[0].value, t[1..]);
        assert f == Pick(player, t[0].move, t[0].value, t[1..]);
        assert forall i :: 1 <= i < |t| ==> t[i] == t[1..][i - 1];
        if f == Found(t[0].move, t[0].value) {
          assert t[0].move == f.move && t[0].value == f.value;
        } else {
          var k :| 0 <= k < |t[1..]| && t[1..][k].move == f.move && t[1..][k].value == f.value
            && Better(player, f.value, t[0].value)
            && forall j :: 0 <= j < k ==> Better(player, f.value, t[1..][j].value);
          assert t[k + 1].move == f.move && t[k + 1].value == f.value;
          assert forall j :: 0 <= j < k + 1 ==> Better(player, f.value, t[j].value) by {
            forall j | 0 <= j < k + 1
              ensures Better(player, f.value, t[j].value)
            {
              if j > 0 {
                assert t[j] == t[1..][j - 1];
              }
            }
          }
        }
      } else {
        PickFirstBest(player, m, v, t[1..]);
        assert f == Pick(player, m, v, t[1..]);
        assert forall i :: 1 <= i < |t| ==> t[i] == t[1..][i - 1];
        if f != Found(m, v) {
          var k :| 0 <= k < |t[1..]| && t[1..][k].move == f.move && t[1..][k].value == f.value
            && Better(player, f.value, v)
            && forall j :: 0 <= j < k ==> Better(player, f.value, t[1..][j].value);
          assert t[k + 1].move == f.move && t[k + 1].value == f.value;
          assert forall j :: 0 <= j < k + 1 ==> Better(player, f.value, t[j].value) by {
            forall j | 0 <= j < k + 1
              ensures Better(player, f.value, t[j].value)
            {
              if j > 0 {
                assert t[j] == t[1..][j - 1];
              }
            }
          }
        }
      }
    }
  }

  /** Picking over two runs of branches is picking over the second from the first's pick. */
  lemma {:induction false} PickAppend(player: int, m: Move, v: int, t1: seq<Branch>, t2: seq<Branch>)
    ensures var f := Pick(player, m, v, t1);
      Pick(player, m, v, t1 + t2) == Pick(player, f.move, f.value, t2)
    decreases t1
  {
    if t1 != [] {
      assert (t1 + t2)[0] == t1[0];
      assert (t1 + t2)[1..] == t1[1..] + t2;
      if Better(player, t1[0].value, v) {
        PickAppend(player, t1[0].move, t1[0].value, t1[1..], t2);
      } else {
        PickAppend(player, m, v, t1[1..], t2);
      }
    } else {
      assert t1 + t2 == t2;
    }
  }

  /** Unless a branch throws, a group ends on the pick over its completed branches. */
  lemma {:induction false} RootMovesPick(e: Engine, b: BoardState, depth: nat, moves: seq<Move>, player: int, r: Root)
    ensures var s := RootMoves(e, b, depth, moves, player, r);
      s != Returned(Crashed) ==> Finish(s) == Pick(player, r.best, r.bestValue, Trail(e, b, depth, moves, player, r))
  {
    if moves != [] && SeedsOf(b, moves[0]) == 0 {
      RootMovesPick(e, b, depth, moves[1..], player, r);
    } else if moves != [] {
      var m := moves[0];
      match Sow(b, m.hole, m.color)
      case Rejected(_) =>
      case Sown(s) =>
        var ev := Minimax(e, s.after, depth, r.alpha, r.beta, player == 2, r.ticks);
        match ev.outcome
        case TimedOut =>
        case Thrown =>
        case Value(x) =>
          var next := Update(r, m, x, player, ev.ticks);
          var br := Branch(m, r.alpha, r.beta, r.ticks, x);
          var rest := if next.alpha >= next.beta then [] else Trail(e, b, depth, moves[1..], player, next);
          assert Trail(e, b, depth, moves, player, r) == [br] + rest;
          assert ([br] + rest)[0] == br && ([br] + rest)[1..] == rest;
          assert Pick(player, r.best, r.bestValue, [br] + rest) == Pick(player, next.best, next.bestValue, rest);
          if next.alpha < next.beta {
            RootMovesPick(e, b, depth, moves[1..], player, next);
          }
    }
  }

  /** Unless a branch throws, the root ends on the pick over all completed branches. */
  lemma {:induction false} RootGroupsPick(e: Engine, b: BoardState, depth: nat, groups: seq<seq<Move>>, player: int, r: Root)
    ensures var s := RootGroups(e, b, depth, groups, player, r);
      s != Returned(Crashed) ==> Finish(s) == Pick(player, r.best, r.bestValue, GroupsTrail(e, b, depth, groups, player, r))
  {
    if groups != [] {
      var t := Trail(e, b, depth, groups[0], player, r);
      RootMovesPick(e, b, depth, groups[0], player, r);
      match RootMoves(e, b, depth, groups[0], player, r)
      case Returned(_) =>
        assert t + [] == t;
      case Scanning(next) =>
        RootGroupsPick(e, b, depth, groups[1..], player, next);
        PickAppend(player, r.best, r.bestValue, t, GroupsTrail(e, b, depth, groups[1..], player, next));
    }
  }

  /** Every completed branch of a group is one of its moves, really searched. */
  lemma {:induction false} TrailSearched(e: Engine, b: BoardState, depth: nat, moves: seq<Move>, player: int, r: Root, i: nat)
    requires i < |Trail(e, b, depth, moves, player, r)|
    ensures var br := Trail(e, b, depth, moves, player, r)[i];
      br.move in moves && Searched(e, b, depth, player, br)
  {
    if SeedsOf(b, moves[0]) == 0 {
      TrailSearched(e, b, depth, moves[1..], player, r, i);
    } else {
      var m := moves[0];
      match Sow(b, m.hole, m.color)
      case Sown(s) =>
        var ev := Minimax(e, s.after, depth, r.alpha, r.beta, player == 2, r.ticks);
        match ev.outcome
        case Value(x) =>
          var next := Update(r, m, x, player, ev.ticks);
          var br := Branch(m, r.alpha, r.beta, r.ticks, x);
          var rest := if next.alpha >= next.beta then [] else Trail(e, b, depth, moves[1..], player, next);
          assert Trail(e, b, depth, moves, player, r) == [br] + rest;
          if i > 0 {
            TrailSearched(e, b, depth, moves[1..], player, next, i - 1);
          }
    }
  }

  /** Every completed branch over all groups was really searched. */
  lemma {:induction false} GroupsTrailSearched(e: Engine, b: BoardState, depth: nat, groups: seq<seq<Move>>, player: int, r: Root, i: nat)
    requires i < |GroupsTrail(e, b, depth, groups, player, r)|
    ensures Searched(e, b, depth, player, GroupsTrail(e, b, depth, groups, player, r)[i])
  {
    var t := GroupsTrail(e, b, depth, groups, player, r);
    var first := Trail(e, b, depth, groups[0], player, r);
    match RootMoves(e, b, depth, groups[0], player, r)
    case Returned(_) =>
      assert t == first + [];
      TrailSearched(e, b, depth, groups[0], player, r, i);
    case Scanning(next) =>
      var rest := GroupsTrail(e, b, depth, groups[1..], player, next);
      assert t == first + rest;
      if i < |first| {
        TrailSearched(e, b, depth, groups[0], player, r, i);
      } else {
        GroupsTrailSearched(e, b, depth, groups[1..], player, next, i - |first|);
      }
  }

  /** The branches findBestMove completes: each a possible move, searched at the
      optimized depth. */
  function RootTrail(e: Engine, b: BoardState, fallback: Move, ticks: nat): seq<Branch>
  {
    var player := b.current;
    var moves := PossibleMoves(e.kind, e.live, b, player);
    var start := Root(MIN_VALUE, MAX_VALUE, fallback, Initial(player), ticks);
    GroupsTrail(e, b, DepthFor(e.kind, |moves|), [moves], player, start)
  }

  /** findBestMove returns the first completed branch whose value no completed branch
      beats, with the value minimax gave it; it keeps the fallback with its sentinel
      exactly when no completed branch beats the sentinel. On a timeout or a cut-off
      the branches not completed play no part. */
  lemma RootPicksFirstBest(e: Engine, b: BoardState, fallback: Move, ticks: nat)
    ensures var f := FindBestMove(e, b, fallback, ticks);
      var t := RootTrail(e, b, fallback, ticks);
      var p := b.current;
      var moves := PossibleMoves(e.kind, e.live, b, p);
      && (forall i :: 0 <= i < |t| ==> t[i].move in moves && Searched(e, b, DepthFor(e.kind, |moves|), p, t[i]))
      && (f.Found? ==>
            && (forall i :: 0 <= i < |t| ==> !Better(p, t[i].value, f.value))
            && (f == Found(fallback, Initial(p)) <==> forall i :: 0 <= i < |t| ==> !Better(p, t[i].value, Initial(p)))
            && (f != Found(fallback, Initial(p)) ==>
                  exists i :: 0 <= i < |t| && t[i].move == f.move && t[i].value == f.value
                    && forall j :: 0 <= j < i ==> Better(p, f.value, t[j].value)))
  {
    var p := b.current;
    var moves := PossibleMoves(e.kind, e.live, b, p);
    var depth := DepthFor(e.kind, |moves|);
    var start := Root(MIN_VALUE, MAX_VALUE, fallback, Initial(p), ticks);
    var t := RootTrail(e, b, fallback, ticks);
    RootGroupsPick(e, b, depth, [moves], p, start);
    PickFirstBest(p, fallback, Initial(p), t);
    assert t == Trail(e, b, depth, moves, p, start) + [] by {
      match RootMoves(e, b, depth, moves, p, start)
      case Returned(_) =>
      case Scanning(next) =>
    }
    forall i | 0 <= i < |t|
      ensures t[i].move in moves && Searched(e, b, depth, p, t[i])
    {
      TrailSearched(e, b, depth, moves, p, start, i);
    }
  }

  /** The same for findBestMoveOld over its per-hole groups at depth 5. */
  lemma OldRootPicksFirstBest(e: Engine, b: BoardState, fallback: Move, ticks: nat)
    ensures var f := FindBestMoveOld(e, b, fallback, ticks);
      var p := b.current;
      var t := GroupsTrail(e, b, INITIAL_DEPTH, HoleGroups(p), p, Root(MIN_VALUE, MAX_VALUE, fallback, Initial(p), ticks));
      && (forall i :: 0 <= i < |t| ==> Searched(e, b, INITIAL_DEPTH, p, t[i]))
      && (f.Found? ==>
            && (forall i :: 0 <= i < |t| ==> !Better(p, t[i].value, f.value))
            && (f == Found(fallback, Initial(p)) <==> forall i :: 0 <= i < |t| ==> !Better(p, t[i].value, Initial(p)))
            && (f != Found(fallback, Initial(p)) ==>
                  exists i :: 0 <= i < |t| && t[i].move == f.move && t[i].value == f.value
                    && forall j :: 0 <= j < i ==> Better(p, f.value, t[j].value)))
  {
    var p := b.current;
    var start := Root(MIN_VALUE, MAX_VALUE, fallback, Initial(p), ticks);
    var t := GroupsTrail(e, b, INITIAL_DEPTH, HoleGroups(p), p, start);
    RootGroupsPick(e, b, INITIAL_DEPTH, HoleGroups(p), p, start);
    PickFirstBest(p, fallback, Initial(p), t);
    forall i | 0 <= i < |t|
      ensures Searched(e, b, INITIAL_DEPTH, p, t[i])
    {
      GroupsTrailSearched(e, b, INITIAL_DEPTH, HoleGroups(p), p, start, i);
    }
  }

  /** After the root's own sowing the board is in turn for the first minimax call:
      the mover's row is what it expands (Ultimate forces the player instead). */
  lemma RootChildInTurn(e: Engine, b: BoardState, m: Move)
    requires b.current == 1 || b.current == 2
    requires Owned(m, b.current) && SeedsOf(b, m) > 0
    ensures Sow(b, m.hole, m.color).Sown?
    ensures InTurn(e, Sow(b, m.hole, m.color).sowing.after, b.current == 2)
  {
  }

  /** The root sows without switching the player, so the first minimax call expands
      the mover's own row again, except under Ultimate, whose forced player is the
      opponent. */
  lemma RootChildSide(e: Engine, b: BoardState, m: Move)
    requires b.current == 1 || b.current == 2
    requires Owned(m, b.current) && SeedsOf(b, m) > 0
    ensures Sow(b, m.hole, m.color).Sown?
    ensures Sow(b, m.hole, m.color).sowing.after.current == b.current
    ensures Side(e.kind, b.current == 2) == if Forces(e.kind) then Opponent(b.current) else b.current
  {
  }

  lemma {:induction false} RootMovesNeverCrash(e: Engine, b: BoardState, depth: nat, moves: seq<Move>, r: Root)
    requires b.current == 1 || b.current == 2
    requires forall m :: m in moves ==> Owned(m, b.current)
    ensures RootMoves(e, b, depth, moves, b.current, r) != Returned(Crashed)
  {
    if moves != [] {
      assert forall m :: m in moves[1..] ==> m in moves;
      var m := moves[0];
      if SeedsOf(b, m) == 0 {
        RootMovesNeverCrash(e, b, depth, moves[1..], r);
      } else {
        RootChildInTurn(e, b, m);
        var s := Sow(b, m.hole, m.color).sowing;
        MinimaxNeverThrows(e, s.after, depth, r.alpha, r.beta, b.current == 2, r.ticks);
        var ev := Minimax(e, s.after, depth, r.alpha, r.beta, b.current == 2, r.ticks);
        if ev.outcome.Value? {
          var next := Update(r, m, ev.outcome.v, b.current, ev.ticks);
          if next.alpha < next.beta {
            RootMovesNeverCrash(e, b, depth, moves[1..], next);
          }
        }
      }
    }
  }

  lemma {:induction false} RootGroupsNeverCrash(e: Engine, b: BoardState, depth: nat, groups: seq<seq<Move>>, r: Root)
    requires b.current == 1 || b.current == 2
    requires forall g, m :: g in groups && m in g ==> Owned(m, b.current)
    ensures RootGroups(e, b, depth, groups, b.current, r) != Returned(Crashed)
  {
    if groups != [] {
      RootMovesNeverCrash(e, b, depth, groups[0], r);
      match RootMoves(e, b, depth, groups[0], b.current, r)
      case Returned(_) =>
      case Scanning(next) =>
        assert forall g :: g in groups[1..] ==> g in groups;
        RootGroupsNeverCrash(e, b, depth, groups[1..], next);
    }
  }

  /** With Player 1 or 2 to move, findBestMove never lets an exception escape. */
  lemma RootNeverCrashes(e: Engine, b: BoardState, fallback: Move, ticks: nat)
    requires b.current == 1 || b.current == 2
    ensures FindBestMove(e, b, fallback, ticks).Found?
  {
    var player := b.current;
    var start := Root(MIN_VALUE, MAX_VALUE, fallback, Initial(player), ticks);
    var moves := PossibleMoves(e.kind, e.live, b, player);
    var groups := [moves];
    PossibleMovesOwned(e.kind, e.live, b, player);
    forall g, m | g in groups && m in g
      ensures Owned(m, player)
    {
      assert g == moves;
    }
    var depth := DepthFor(e.kind, |moves|);
    RootGroupsNeverCrash(e, b, depth, groups, start);
    FinishFound(RootGroups(e, b, depth, groups, player, start));
  }

  lemma PossibleMovesOwned(k: Kind, live: BoardState, b: BoardState, player: int)
    ensures forall m :: m in PossibleMoves(k, live, b, player) ==> Owned(m, player)
  {
    forall m | m in PossibleMoves(k, live, b, player)
      ensures Owned(m, player)
    {
      PossibleMovesExact(k, live, b, player, m);
    }
  }

  lemma FinishFound(s: RootScan)
    requires s != Returned(Crashed)
    ensures Finish(s).Found?
  {
  }

  lemma HoleGroupsOwned(player: int)
    ensures forall g, m :: g in HoleGroups(player) && m in g ==> Owned(m, player)
  {
    var groups := HoleGroups(player);
    forall g, m | g in groups && m in g
      ensures Owned(m, player)
    {
      var i :| 0 <= i < |groups| && groups[i] == g;
    }
  }

  /** The same for findBestMoveOld. */
  lemma OldRootNeverCrashes(e: Engine, b: BoardState, fallback: Move, ticks: nat)
    requires b.current == 1 || b.current == 2
    ensures FindBestMoveOld(e, b, fallback, ticks).Found?
  {
    var player := b.current;
    var start := Root(MIN_VALUE, MAX_VALUE, fallback, Initial(player), ticks);
    HoleGroupsOwned(player);
    RootGroupsNeverCrash(e, b, INITIAL_DEPTH, HoleGroups(player), start);
  }

  // ---------------------------------------------------------------------------
  // findRandomMove

  /** One pass of the random loop: the index (int)(Math.random() * 8), the coin
      Math.random() < 0.5 that picks BLUE, and for Nolan the colour of the seed
      drawn from the hole. */
  datatype Draw = Draw(index: nat, blueCoin: bool, seed: Color)

  /** The move one draw yields, if its hole holds a seed. Nolan's version draws a seed
      from the hole; the order of seeds in a hole is not modelled, so the drawn
      colour is taken from the draw when present and otherwise is the hole's only one. */
  function DrawMove(k: Kind, b: BoardState, d: Draw): Option<Move>
  {
    var row := PlayerHoles(b.current);
    if d.index >= PLAYER_HOLES then None
    else
      var h := row[d.index];
      var blue := b.holes[h].Count(Blue);
      var red := b.holes[h].Count(Red);
      if k == Nolan then
        if b.holes[h].Size() == 0 then None
        else if b.holes[h].Count(d.seed) > 0 then Some(Move(h, d.seed))
        else Some(Move(h, if d.seed == Red then Blue else Red))
      else if blue > 0 && red > 0 then Some(Move(h, if d.blueCoin then Blue else Red))
      else if blue > 0 then Some(Move(h, Blue))
      else if red > 0 then Some(Move(h, Red))
      else None
  }

  /** findRandomMove: draws until one yields a move; None when the draws run out
      (the Java loop would keep drawing). */
  function RandomMove(k: Kind, b: BoardState, draws: seq<Draw>): Option<Move>
  {
    if draws == [] then None
    else if DrawMove(k, b, draws[0]).Some? then DrawMove(k, b, draws[0])
    else RandomMove(k, b, draws[1..])
  }

  /** A draw that lands on a non-empty hole of the row yields a move of that hole,
      with a colour it holds. */
  lemma DrawMoveLegal(k: Kind, b: BoardState, d: Draw)
    ensures var r := DrawMove(k, b, d);
      r.Some? ==> Owned(r.value, b.current) && SeedsOf(b, r.value) > 0
    ensures DrawMove(k, b, d).None? <==>
      d.index >= PLAYER_HOLES || b.holes[PlayerHoles(b.current)[d.index]].Size() == 0
  {
  }

  /** The random move is an owned hole holding the returned colour, hence legal for
      Player 1 or 2; it is missing only when no draw lands on a non-empty hole. */
  lemma {:induction false} RandomMoveLegal(k: Kind, b: BoardState, draws: seq<Draw>)
    ensures var r := RandomMove(k, b, draws);
      r.Some? ==> Owned(r.value, b.current) && SeedsOf(b, r.value) > 0
    ensures RandomMove(k, b, draws).None? <==>
      forall i :: 0 <= i < |draws| ==> DrawMove(k, b, draws[i]).None?
  {
    if draws != [] {
      DrawMoveLegal(k, b, draws[0]);
      RandomMoveLegal(k, b, draws[1..]);
      assert forall i :: 1 <= i < |draws| ==> draws[i] == draws[1..][i - 1];
    }
  }
}
