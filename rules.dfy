/** Pure rules of the two-colour, sixteen-hole Awale variant played by
    game/elements/Board.java: a board value, move validation, the two sowing
    rules, the backward capture and the end-of-game status. The mutable board
    classes are proved against these functions. */
module Rules {

  const TOTAL_HOLES: int := 16
  const PLAYER_HOLES: int := 8
  const INITIAL_SEEDS_PER_COLOR: nat := 2
  const TOTAL_SEEDS: nat := 64

  /** Java's Integer.MIN_VALUE and Integer.MAX_VALUE, used as sentinels. */
  const MIN_VALUE: int := -0x8000_0000
  const MAX_VALUE: int := 0x7fff_ffff

  /** Math.max and Math.min on int. */
  function Max(x: int, y: int): int { if x >= y then x else y }
  function Min(x: int, y: int): int { if x <= y then x else y }

  /** Seed.Color, in its declaration order RED, BLUE. */
  datatype Color = Red | Blue

  /** A hole is a list of colour tags; only the count of each colour matters. */
  datatype Hole = Hole(blue: nat, red: nat) {
    function Size(): nat { blue + red }
    function Count(c: Color): nat { if c == Blue then blue else red }
    function Without(c: Color): Hole { if c == Blue then Hole(0, red) else Hole(blue, 0) }
    function Plus(c: Color, n: nat): Hole { if c == Blue then Hole(blue + n, red) else Hole(blue, red + n) }
  }

  const EMPTY: Hole := Hole(0, 0)

  datatype Option<T> = None | Some(value: T)

  type Ring = s: seq<Hole> | |s| == TOTAL_HOLES witness seq(16, _ => EMPTY)

  /** A snapshot of Board: holes, the two captured totals and the player to move. */
  datatype BoardState = BoardState(holes: Ring, p1: int, p2: int, current: int)

  /** A move: hole index and colour (game/player/Move.java). */
  datatype Move = Move(hole: int, color: Color)

  function Zeros(n: nat): (r: seq<Hole>)
    ensures |r| == n
  {
    seq(n, _ => EMPTY)
  }

  /** Number of seeds in a run of holes. */
  function Sum(s: seq<Hole>): nat
  {
    if s == [] then 0 else Sum(s[..|s| - 1]) + s[|s| - 1].Size()
  }

  lemma {:induction false} SumAppend(a: seq<Hole>, b: seq<Hole>)
    ensures Sum(a + b) == Sum(a) + Sum(b)
  {
    if b == [] {
      assert a + b == a;
    } else {
      assert (a + b)[..|a + b| - 1] == a + b[..|b| - 1];
      SumAppend(a, b[..|b| - 1]);
    }
  }

  lemma SumSingle(h: Hole)
    ensures Sum([h]) == h.Size()
  {
    assert [h][..0] == [];
  }

  lemma SumUpdate(s: seq<Hole>, i: int, h: Hole)
    requires 0 <= i < |s|
    ensures Sum(s[i := h]) + s[i].Size() == Sum(s) + h.Size()
  {
    assert s == s[..i] + [s[i]] + s[i + 1..];
    assert s[i := h] == s[..i] + [h] + s[i + 1..];
    SumAppend(s[..i] + [s[i]], s[i + 1..]);
    SumAppend(s[..i], [s[i]]);
    SumAppend(s[..i] + [h], s[i + 1..]);
    SumAppend(s[..i], [h]);
    SumSingle(s[i]);
    SumSingle(h);
  }

  lemma SumClear(s: seq<Hole>, i: int)
    requires 0 <= i < |s|
    ensures Sum(s[i := EMPTY]) + s[i].Size() == Sum(s)
  {
    SumUpdate(s, i, EMPTY);
  }

  lemma SumAddOne(s: seq<Hole>, t: int, c: Color)
    requires 0 <= t < |s|
    ensures Sum(s[t := s[t].Plus(c, 1)]) == Sum(s) + 1
  {
    SumUpdate(s, t, s[t].Plus(c, 1));
  }

  lemma {:induction false} SumZeros(n: nat)
    ensures Sum(Zeros(n)) == 0
  {
    if n > 0 {
      assert Zeros(n)[..n - 1] == Zeros(n - 1);
      SumZeros(n - 1);
    }
  }

  lemma {:induction false} SumInitialRow(n: nat)
    ensures Sum(seq(n, _ => Hole(2, 2))) == 4 * n
  {
    if n > 0 {
      assert seq(n, _ => Hole(2, 2))[..n - 1] == seq(n - 1, _ => Hole(2, 2));
      SumInitialRow(n - 1);
    }
  }

  /** Seeds on the board plus both captured totals is the 64 seeds dealt at the start. */
  predicate Conserved(b: BoardState)
  {
    b.p1 >= 0 && b.p2 >= 0 && Sum(b.holes) + b.p1 + b.p2 == TOTAL_SEEDS
  }

  /** The board the constructor builds: two blue and two red seeds per hole. */
  function InitialBoard(current: int): (b: BoardState)
    ensures Conserved(b)
    ensures forall i :: 0 <= i < TOTAL_HOLES ==> b.holes[i].blue == INITIAL_SEEDS_PER_COLOR && b.holes[i].red == INITIAL_SEEDS_PER_COLOR
  {
    SumInitialRow(16);
    BoardState(seq(16, _ => Hole(2, 2)), 0, 0, current)
  }

  /** switchPlayer: 1 becomes 2, anything else becomes 1. */
  function Opponent(player: int): (r: int)
    ensures r == 1 || r == 2
    ensures player == 1 <==> r == 2
  {
    if player == 1 then 2 else 1
  }

  function SwitchPlayer(b: BoardState): BoardState
  {
    b.(current := Opponent(b.current))
  }

  /** Player 1 owns the even holes, every other player number the odd ones. */
  function Parity(player: int): int
  {
    if player == 1 then 0 else 1
  }

  /** getPlayerHoles: the parity row of a player, in ascending order. */
  function PlayerHoles(player: int): (r: seq<int>)
    ensures |r| == PLAYER_HOLES
    ensures forall k :: 0 <= k < |r| ==> 0 <= r[k] < TOTAL_HOLES && r[k] % 2 == Parity(player)
    ensures forall k, l :: 0 <= k < l < |r| ==> r[k] < r[l]
    ensures forall h :: 0 <= h < TOTAL_HOLES && h % 2 == Parity(player) ==> h in r
  {
    if player == 1 then [0, 2, 4, 6, 8, 10, 12, 14] else [1, 3, 5, 7, 9, 11, 13, 15]
  }

  predicate HasSeeds(b: BoardState, hole: int, c: Color)
    requires 0 <= hole < TOTAL_HOLES
  {
    b.holes[hole].Count(c) > 0
  }

  /** The player owns at least one non-empty hole of their parity row. */
  predicate HasMove(b: BoardState, player: int)
  {
    exists h :: 0 <= h < TOTAL_HOLES && h % 2 == Parity(player) && b.holes[h].Size() > 0
  }

  /** Looking for a non-empty hole along getPlayerHoles finds one exactly when the player has a move. */
  lemma HasMoveInRow(b: BoardState, player: int)
    ensures HasMove(b, player) <==> exists k :: 0 <= k < PLAYER_HOLES && b.holes[PlayerHoles(player)[k]].Size() > 0
  {
    var row := PlayerHoles(player);
    if HasMove(b, player) {
      var h :| 0 <= h < TOTAL_HOLES && h % 2 == Parity(player) && b.holes[h].Size() > 0;
      assert h in row;
      var k :| 0 <= k < |row| && row[k] == h;
      assert b.holes[row[k]].Size() > 0;
    }
  }

  // ---------------------------------------------------------------------------
  // Sowing

  /** Steps forward around the ring from `from` to `to`, both in 0..15. */
  function Offset(from: int, to: int): int
  {
    if from <= to then to - from else to - from + TOTAL_HOLES
  }

  /** Where the k-th blue seed (k >= 1) lands: successive holes, the origin skipped. */
  function BlueTarget(origin: int, k: nat): (r: int)
    requires 0 <= origin < TOTAL_HOLES && k >= 1
    ensures 0 <= r < TOTAL_HOLES
  {
    (origin + (k - 1) % 15 + 1) % TOTAL_HOLES
  }

  /** sowBlueSeeds, one seed at a time: the k-th seed goes to BlueTarget(origin, k). */
  function SowBlue(holes: Ring, origin: int, n: nat): Ring
    requires 0 <= origin < TOTAL_HOLES
  {
    if n == 0 then holes
    else
      var h := SowBlue(holes, origin, n - 1);
      var t := BlueTarget(origin, n);
      h[t := h[t].Plus(Blue, 1)]
  }

  /** The value sowBlueSeeds returns: the last hole filled, or the origin when nothing is sown. */
  function BlueLanding(origin: int, n: nat): (r: int)
    requires 0 <= origin < TOTAL_HOLES
    ensures 0 <= r < TOTAL_HOLES
  {
    if n == 0 then origin else BlueTarget(origin, n)
  }

  /** Where the k-th red seed (k >= 1) lands: origin+1, origin+3, ... around the ring. */
  function RedTarget(origin: int, k: nat): (r: int)
    requires k >= 1
    ensures 0 <= r < TOTAL_HOLES
  {
    (origin + 2 * k - 1) % TOTAL_HOLES
  }

  /** sowRedSeeds, one seed at a time: the k-th seed goes to RedTarget(origin, k). */
  function SowRed(holes: Ring, origin: int, n: nat): Ring
  {
    if n == 0 then holes
    else
      var h := SowRed(holes, origin, n - 1);
      var t := RedTarget(origin, n);
      h[t := h[t].Plus(Red, 1)]
  }

  /** The value sowRedSeeds returns: two holes back from the next free target. */
  function RedLanding(origin: int, n: nat): (r: int)
    ensures 0 <= r < TOTAL_HOLES
  {
    (origin + 2 * n + 15) % TOTAL_HOLES
  }

  /** Holes after the chosen colour is taken from the origin and sown, before capture. */
  datatype Spread = Spread(holes: Ring, landing: int, sown: nat)

  function SpreadSeeds(holes: Ring, origin: int, c: Color): (r: Spread)
    requires 0 <= origin < TOTAL_HOLES
    ensures 0 <= r.landing < TOTAL_HOLES
  {
    var n := holes[origin].Count(c);
    var taken := holes[origin := holes[origin].Without(c)];
    if c == Blue then Spread(SowBlue(taken, origin, n), BlueLanding(origin, n), n)
    else Spread(SowRed(taken, origin, n), RedLanding(origin, n), n)
  }

  // Closed forms: how many seeds each hole receives, stated without the seed-by-seed walk.

  /** How many of n blue seeds sown from `origin` end in hole j: one per full turn of
      the 15 other holes, plus one if j is among the first n % 15 holes of the next turn. */
  function BlueShare(origin: int, j: int, n: nat): nat
  {
    if j == origin then 0 else n / 15 + (if Offset(origin, j) <= n % 15 then 1 else 0)
  }

  /** How many of n red seeds sown from `origin` end in hole j: holes an even distance
      ahead get none; the others one per full turn of 8, plus the first n % 8 of the next. */
  function RedShare(origin: int, j: int, n: nat): nat
  {
    var d := Offset(origin, j);
    if d % 2 == 0 then 0 else n / 8 + (if d / 2 < n % 8 then 1 else 0)
  }

  lemma NextQuotient15(k: nat)
    ensures k % 15 == 14 ==> (k + 1) / 15 == k / 15 + 1 && (k + 1) % 15 == 0
    ensures k % 15 != 14 ==> (k + 1) / 15 == k / 15 && (k + 1) % 15 == k % 15 + 1
  {
  }

  lemma NextQuotient8(k: nat)
    ensures k % 8 == 7 ==> (k + 1) / 8 == k / 8 + 1 && (k + 1) % 8 == 0
    ensures k % 8 != 7 ==> (k + 1) / 8 == k / 8 && (k + 1) % 8 == k % 8 + 1
  {
  }

  lemma BlueTargetForm(origin: int, k: nat)
    requires 0 <= origin < TOTAL_HOLES
    ensures var m := k % 15; BlueTarget(origin, k + 1) == if origin + m + 1 < 16 then origin + m + 1 else origin + m + 1 - 16
  {
  }

  lemma RedTargetForm(origin: int, k: nat)
    requires 0 <= origin < TOTAL_HOLES
    ensures var m := k % 8; RedTarget(origin, k + 1) == if origin + 2 * m + 1 < 16 then origin + 2 * m + 1 else origin + 2 * m + 1 - 16
  {
    assert origin + 2 * (k + 1) - 1 == origin + 2 * (k % 8) + 1 + 16 * (k / 8);
  }

  lemma BlueShareStep(origin: int, j: int, k: nat)
    requires 0 <= origin < TOTAL_HOLES && 0 <= j < TOTAL_HOLES
    ensures BlueTarget(origin, k + 1) != origin
    ensures Offset(origin, BlueTarget(origin, k + 1)) == k % 15 + 1
    ensures BlueShare(origin, j, k + 1) == BlueShare(origin, j, k) + (if j == BlueTarget(origin, k + 1) then 1 else 0)
  {
    BlueTargetForm(origin, k);
    NextQuotient15(k);
  }

  lemma RedShareStep(origin: int, j: int, k: nat)
    requires 0 <= origin < TOTAL_HOLES && 0 <= j < TOTAL_HOLES
    ensures Offset(origin, RedTarget(origin, k + 1)) == 2 * (k % 8) + 1
    ensures RedShare(origin, j, k + 1) == RedShare(origin, j, k) + (if j == RedTarget(origin, k + 1) then 1 else 0)
  {
    RedTargetForm(origin, k);
    NextQuotient8(k);
    var d := Offset(origin, j);
    assert d % 2 == 1 ==> d == 2 * (d / 2) + 1;
  }

  lemma BlueShareNext(origin: int, j: int, n: nat)
    requires 0 <= origin < TOTAL_HOLES && 0 <= j < TOTAL_HOLES && n > 0
    ensures BlueShare(origin, j, n) == BlueShare(origin, j, n - 1) + (if j == BlueTarget(origin, n) then 1 else 0)
  {
    BlueShareStep(origin, j, n - 1);
  }

  lemma RedShareNext(origin: int, j: int, n: nat)
    requires 0 <= origin < TOTAL_HOLES && 0 <= j < TOTAL_HOLES && n > 0
    ensures RedShare(origin, j, n) == RedShare(origin, j, n - 1) + (if j == RedTarget(origin, n) then 1 else 0)
  {
    RedShareStep(origin, j, n - 1);
  }

  lemma SowBlueCell(holes: Ring, origin: int, n: nat, j: int)
    requires 0 <= origin < TOTAL_HOLES && 0 <= j < TOTAL_HOLES && n > 0
    ensures SowBlue(holes, origin, n)[j] == SowBlue(holes, origin, n - 1)[j].Plus(Blue, if j == BlueTarget(origin, n) then 1 else 0)
  {
  }

  lemma SowRedCell(holes: Ring, origin: int, n: nat, j: int)
    requires 0 <= origin < TOTAL_HOLES && 0 <= j < TOTAL_HOLES && n > 0
    ensures SowRed(holes, origin, n)[j] == SowRed(holes, origin, n - 1)[j].Plus(Red, if j == RedTarget(origin, n) then 1 else 0)
  {
  }

  lemma PlusTwice(h: Hole, c: Color, a: nat, b: nat)
    ensures h.Plus(c, a).Plus(c, b) == h.Plus(c, a + b)
  {
  }

  /** The seed-by-seed blue sowing agrees with the closed form BlueShare. */
  lemma {:induction false} SowBlueShare(holes: Ring, origin: int, n: nat, j: int)
    requires 0 <= origin < TOTAL_HOLES && 0 <= j < TOTAL_HOLES
    ensures SowBlue(holes, origin, n)[j] == holes[j].Plus(Blue, BlueShare(origin, j, n))
  {
    if n > 0 {
      SowBlueShare(holes, origin, n - 1, j);
      BlueShareNext(origin, j, n);
      SowBlueCell(holes, origin, n, j);
      PlusTwice(holes[j], Blue, BlueShare(origin, j, n - 1), if j == BlueTarget(origin, n) then 1 else 0);
    }
  }

  /** The seed-by-seed red sowing agrees with the closed form RedShare. */
  lemma {:induction false} SowRedShare(holes: Ring, origin: int, n: nat, j: int)
    requires 0 <= origin < TOTAL_HOLES && 0 <= j < TOTAL_HOLES
    ensures SowRed(holes, origin, n)[j] == holes[j].Plus(Red, RedShare(origin, j, n))
  {
    if n > 0 {
      SowRedShare(holes, origin, n - 1, j);
      RedShareNext(origin, j, n);
      SowRedCell(holes, origin, n, j);
      PlusTwice(holes[j], Red, RedShare(origin, j, n - 1), if j == RedTarget(origin, n) then 1 else 0);
    }
  }

  /** Blue sowing adds exactly n seeds to the board. */
  lemma {:induction false} SowBlueSum(holes: Ring, origin: int, n: nat)
    requires 0 <= origin < TOTAL_HOLES
    ensures Sum(SowBlue(holes, origin, n)) == Sum(holes) + n
  {
    if n > 0 {
      SowBlueSum(holes, origin, n - 1);
      SumAddOne(SowBlue(holes, origin, n - 1), BlueTarget(origin, n), Blue);
    }
  }

  /** Red sowing adds exactly n seeds to the board. */
  lemma {:induction false} SowRedSum(holes: Ring, origin: int, n: nat)
    requires 0 <= origin < TOTAL_HOLES
    ensures Sum(SowRed(holes, origin, n)) == Sum(holes) + n
  {
    if n > 0 {
      SowRedSum(holes, origin, n - 1);
      SumAddOne(SowRed(holes, origin, n - 1), RedTarget(origin, n), Red);
    }
  }

  /** Blue sowing never refills the origin, and the landing hole is never the origin;
      with at most 15 seeds the holes 1..n steps ahead get one seed each, no other
      hole changes, and the landing hole is the n-th one ahead. */
  lemma BlueSowing(holes: Ring, origin: int, n: nat)
    requires 0 <= origin < TOTAL_HOLES
    ensures SowBlue(holes, origin, n)[origin] == holes[origin]
    ensures n > 0 ==> BlueLanding(origin, n) != origin
    ensures n <= 15 ==> forall j :: 0 <= j < TOTAL_HOLES ==>
      SowBlue(holes, origin, n)[j] == (if j != origin && Offset(origin, j) <= n then holes[j].Plus(Blue, 1) else holes[j])
    ensures 0 < n <= 15 ==> Offset(origin, BlueLanding(origin, n)) == n
  {
    SowBlueShare(holes, origin, n, origin);
    if n > 0 {
      BlueShareStep(origin, origin, n - 1);
    }
    if n <= 15 {
      forall j | 0 <= j < TOTAL_HOLES
        ensures SowBlue(holes, origin, n)[j] == (if j != origin && Offset(origin, j) <= n then holes[j].Plus(Blue, 1) else holes[j])
      {
        SowBlueShare(holes, origin, n, j);
        if n == 15 { assert n / 15 == 1 && n % 15 == 0; } else { assert n / 15 == 0 && n % 15 == n; }
      }
    }
  }

  /** Red sowing leaves every hole of the origin's parity alone (the origin included)
      and lands on a hole of the other parity. */
  lemma RedSowing(holes: Ring, origin: int, n: nat)
    requires 0 <= origin < TOTAL_HOLES
    ensures forall j :: 0 <= j < TOTAL_HOLES && j % 2 == origin % 2 ==> SowRed(holes, origin, n)[j] == holes[j]
    ensures RedLanding(origin, n) % 2 != origin % 2
    ensures n > 0 ==> RedLanding(origin, n) == RedTarget(origin, n)
  {
    forall j | 0 <= j < TOTAL_HOLES && j % 2 == origin % 2
      ensures SowRed(holes, origin, n)[j] == holes[j]
    {
      SowRedShare(holes, origin, n, j);
    }
    var q := (origin + 2 * n + 15) / 16;
    assert RedLanding(origin, n) == origin + 2 * n + 15 - 16 * q;
    if n > 0 {
      assert origin + 2 * n + 15 == (origin + 2 * n - 1) + 16;
    }
  }

  /** Taking and sowing moves seeds around without creating or losing any,
      empties the chosen colour of the origin and leaves its other colour alone. */
  lemma SpreadKeepsSeeds(holes: Ring, origin: int, c: Color)
    requires 0 <= origin < TOTAL_HOLES
    ensures var s := SpreadSeeds(holes, origin, c);
      && Sum(s.holes) == Sum(holes)
      && s.sown == holes[origin].Count(c)
      && s.holes[origin] == holes[origin].Without(c)
      && (s.sown > 0 ==> s.landing != origin)
  {
    var n := holes[origin].Count(c);
    var taken := holes[origin := holes[origin].Without(c)];
    SumUpdate(holes, origin, holes[origin].Without(c));
    if c == Blue {
      SowBlueSum(taken, origin, n);
      BlueSowing(taken, origin, n);
    } else {
      SowRedSum(taken, origin, n);
      RedSowing(taken, origin, n);
    }
  }

  // ---------------------------------------------------------------------------
  // Capture

  predicate Capturable(h: Hole)
  {
    h.Size() == 2 || h.Size() == 3
  }

  function CapturableCount(s: seq<Hole>): nat
  {
    if s == [] then 0 else CapturableCount(s[..|s| - 1]) + (if Capturable(s[|s| - 1]) then 1 else 0)
  }

  lemma {:induction false} CapturableCountBound(s: seq<Hole>)
    ensures CapturableCount(s) <= |s|
  {
    if s != [] {
      CapturableCountBound(s[..|s| - 1]);
    }
  }

  lemma {:induction false} ClearDecreases(s: seq<Hole>, i: int)
    requires 0 <= i < |s| && Capturable(s[i])
    ensures CapturableCount(s[i := EMPTY]) + 1 == CapturableCount(s)
  {
    var t := s[i := EMPTY];
    var n := |s| - 1;
    if i < n {
      ClearDecreases(s[..n], i);
      assert t[..n] == s[..n][i := EMPTY];
    } else {
      assert t[..n] == s[..n];
    }
  }

  /** One step counter-clockwise. */
  function Previous(pos: int): (r: int)
    requires 0 <= pos < TOTAL_HOLES
    ensures r == if pos == 0 then TOTAL_HOLES - 1 else pos - 1
  {
    (pos - 1 + TOTAL_HOLES) % TOTAL_HOLES
  }

  /** Result of captureSeeds: the holes after it, the seeds taken and how many holes were emptied. */
  datatype Capture = Capture(holes: Ring, seeds: nat, length: nat)

  /** captureSeeds: starting at the landing hole itself, empty every hole holding 2 or
      3 seeds, walking backward, and stop at the first hole holding another number. */
  function CaptureRun(holes: Ring, pos: int): Capture
    requires 0 <= pos < TOTAL_HOLES
    decreases CapturableCount(holes)
  {
    if Capturable(holes[pos]) then
      ClearDecreases(holes, pos);
      var r := CaptureRun(holes[pos := EMPTY], Previous(pos));
      Capture(r.holes, r.seeds + holes[pos].Size(), r.length + 1)
    else
      Capture(holes, 0, 0)
  }

  /** Hole i lies within the first `len` holes of the backward walk from pos. */
  predicate InRun(pos: int, len: int, i: int)
  {
    Distance(i, pos) < len
  }

  /** Steps backward from `pos` to `i`, both in 0..15. */
  function Distance(i: int, pos: int): int
  {
    if i <= pos then pos - i else pos - i + TOTAL_HOLES
  }

  /** The hole k steps backward from `pos`, for k in 0..15. */
  function Back(pos: int, k: int): int
  {
    if k <= pos then pos - k else pos - k + TOTAL_HOLES
  }

  /** The capture moves exactly the seeds it removes from the board to its count. */
  lemma {:induction false} CaptureSum(holes: Ring, pos: int)
    requires 0 <= pos < TOTAL_HOLES
    ensures var r := CaptureRun(holes, pos); Sum(r.holes) + r.seeds == Sum(holes)
    decreases CapturableCount(holes)
  {
    if Capturable(holes[pos]) {
      var h' := holes[pos := EMPTY];
      ClearDecreases(holes, pos);
      SumClear(holes, pos);
      CaptureSum(h', Previous(pos));
    }
  }

  /** The capture empties at most as many holes as held 2 or 3 seeds, so at most 16. */
  lemma {:induction false} CaptureLength(holes: Ring, pos: int)
    requires 0 <= pos < TOTAL_HOLES
    ensures CaptureRun(holes, pos).length <= CapturableCount(holes) <= TOTAL_HOLES
    decreases CapturableCount(holes)
  {
    CapturableCountBound(holes);
    if Capturable(holes[pos]) {
      ClearDecreases(holes, pos);
      CaptureLength(holes[pos := EMPTY], Previous(pos));
    }
  }

  lemma RunStep(pos: int, len: int, i: int)
    requires 0 <= pos < TOTAL_HOLES && 0 <= i < TOTAL_HOLES && 0 <= len <= 15
    ensures InRun(pos, len + 1, i) <==> i == pos || InRun(Previous(pos), len, i)
    ensures !InRun(Previous(pos), len, pos)
    ensures len + 1 < TOTAL_HOLES ==> Back(pos, len + 1) == Back(Previous(pos), len) != pos
  {
  }

  /** One capture step: the landing hole is emptied and the walk continues one hole back. */
  lemma CaptureStep(holes: Ring, pos: int)
    requires 0 <= pos < TOTAL_HOLES && Capturable(holes[pos])
    ensures var h' := holes[pos := EMPTY]; var r' := CaptureRun(h', Previous(pos));
      && r'.length <= 15
      && CaptureRun(holes, pos) == Capture(r'.holes, r'.seeds + holes[pos].Size(), r'.length + 1)
      && CapturableCount(h') < CapturableCount(holes)
  {
    var h' := holes[pos := EMPTY];
    ClearDecreases(holes, pos);
    CapturableCountBound(holes);
    CaptureLength(h', Previous(pos));
  }

  /** The capture touches no hole outside the backward run it reports. */
  lemma {:induction false} CaptureKeeps(holes: Ring, pos: int)
    requires 0 <= pos < TOTAL_HOLES
    ensures var r := CaptureRun(holes, pos);
      forall i :: 0 <= i < TOTAL_HOLES && !InRun(pos, r.length, i) ==> r.holes[i] == holes[i]
    decreases CapturableCount(holes)
  {
    if Capturable(holes[pos]) {
      var h', p' := holes[pos := EMPTY], Previous(pos);
      CaptureStep(holes, pos);
      CaptureKeeps(h', p');
      var r' := CaptureRun(h', p');
      forall i | 0 <= i < TOTAL_HOLES && !InRun(pos, r'.length + 1, i)
        ensures r'.holes[i] == holes[i]
      {
        RunStep(pos, r'.length, i);
      }
    }
  }

  /** Every hole of the run held 2 or 3 seeds and is empty afterwards; the run starts
      at the landing hole itself. */
  lemma {:induction false} CaptureClears(holes: Ring, pos: int)
    requires 0 <= pos < TOTAL_HOLES
    ensures var r := CaptureRun(holes, pos);
      forall i :: 0 <= i < TOTAL_HOLES && InRun(pos, r.length, i) ==> Capturable(holes[i]) && r.holes[i] == EMPTY
    ensures Capturable(holes[pos]) <==> CaptureRun(holes, pos).length > 0
    decreases CapturableCount(holes)
  {
    if Capturable(holes[pos]) {
      var h', p' := holes[pos := EMPTY], Previous(pos);
      CaptureStep(holes, pos);
      CaptureClears(h', p');
      CaptureKeeps(h', p');
      var r' := CaptureRun(h', p');
      forall i | 0 <= i < TOTAL_HOLES && InRun(pos, r'.length + 1, i)
        ensures Capturable(holes[i]) && r'.holes[i] == EMPTY
      {
        RunStep(pos, r'.length, i);
        if i == pos {
          assert r'.holes[i] == h'[i];
        } else {
          assert InRun(p', r'.length, i) && h'[i] == holes[i];
        }
      }
    } else {
      assert forall i :: 0 <= i < TOTAL_HOLES ==> !InRun(pos, 0, i);
    }
  }

  /** Unless it went all the way round, the capture stopped at a hole that did not
      hold 2 or 3 seeds. */
  lemma {:induction false} CaptureStops(holes: Ring, pos: int)
    requires 0 <= pos < TOTAL_HOLES
    ensures var r := CaptureRun(holes, pos);
      r.length < TOTAL_HOLES ==> 0 <= Back(pos, r.length) < TOTAL_HOLES && !Capturable(holes[Back(pos, r.length)])
    decreases CapturableCount(holes)
  {
    if Capturable(holes[pos]) {
      var h', p' := holes[pos := EMPTY], Previous(pos);
      CaptureStep(holes, pos);
      CaptureStops(h', p');
      var len := CaptureRun(h', p').length;
      if len + 1 < TOTAL_HOLES {
        RunStep(pos, len, pos);
      }
    }
  }

  // ---------------------------------------------------------------------------
  // sowSeeds

  /** The exceptions sowSeeds raises. An index outside 0..15 fails in the diagnostic
      print (ArrayIndexOutOfBoundsException) before the IllegalArgumentException. */
  datatype SowError = OutOfRange | InvalidMove | NotOwnHole

  datatype Sowing = Sowing(after: BoardState, landing: int, captured: nat)

  datatype SowResult = Sown(sowing: Sowing) | Rejected(error: SowError)

  /** The move passes sowSeeds' checks: hole in range, holding the colour, and of
      the current player's parity (Player 1 even, Player 2 odd). */
  predicate Legal(b: BoardState, hole: int, c: Color)
  {
    && 0 <= hole < TOTAL_HOLES
    && b.holes[hole].Count(c) > 0
    && !(hole % 2 == 1 && b.current == 1)
    && !(hole % 2 == 0 && b.current == 2)
  }

  /** Adds captured seeds to the given player's total (captureSeeds' final step). */
  function Credit(b: BoardState, player: int, seeds: nat): BoardState
  {
    if player == 1 then b.(p1 := b.p1 + seeds) else b.(p2 := b.p2 + seeds)
  }

  /** sowSeeds: validate, take every seed of the colour, sow it, capture from the landing hole. */
  function Sow(b: BoardState, hole: int, c: Color): (r: SowResult)
    ensures r.Sown? <==> Legal(b, hole, c)
    ensures r.Rejected? && !(0 <= hole < TOTAL_HOLES) ==> r.error == OutOfRange
    ensures r.Sown? ==> r.sowing.after.current == b.current
  {
    if hole < 0 || hole >= TOTAL_HOLES then Rejected(OutOfRange)
    else if b.holes[hole].Size() == 0 || b.holes[hole].Count(c) == 0 then Rejected(InvalidMove)
    else if hole % 2 == 1 && b.current == 1 then Rejected(NotOwnHole)
    else if hole % 2 == 0 && b.current == 2 then Rejected(NotOwnHole)
    else
      var s := SpreadSeeds(b.holes, hole, c);
      var cap := CaptureRun(s.holes, s.landing);
      Sown(Sowing(Credit(b.(holes := cap.holes), b.current, cap.seeds), s.landing, cap.seeds))
  }

  /** A legal move keeps the 64-seed total, credits what it captures to the mover
      only, and never lowers either score. */
  lemma SowConserves(b: BoardState, hole: int, c: Color)
    requires Conserved(b) && Legal(b, hole, c)
    ensures var s := Sow(b, hole, c).sowing;
      && Conserved(s.after)
      && s.after.p1 >= b.p1 && s.after.p2 >= b.p2
      && s.after.p1 + s.after.p2 == b.p1 + b.p2 + s.captured
      && (b.current != 1 ==> s.after.p1 == b.p1)
      && (b.current == 1 ==> s.after.p2 == b.p2)
  {
    var s := SpreadSeeds(b.holes, hole, c);
    SpreadKeepsSeeds(b.holes, hole, c);
    CaptureSum(s.holes, s.landing);
  }

  // ---------------------------------------------------------------------------
  // checkGameStatus

  /** GameStatus.winner: "Player 1", "Player 2", "Draw", or null when not over. */
  datatype Winner = Player1 | Player2 | Draw | Nobody

  datatype Reason = Threshold | EvenSplit | FewSeeds | NoMoves | NotOver

  datatype GameStatus = GameStatus(isOver: bool, winner: Winner, reason: Reason)

  /** The status and the board after evaluating it (the no-move rule changes the board). */
  datatype Checked = Checked(status: GameStatus, after: BoardState)

  function Leader(b: BoardState): Winner
  {
    if b.p1 > b.p2 then Player1 else if b.p1 < b.p2 then Player2 else Draw
  }

  /** captureRemainingSeeds: Player 1 takes holes 0..7, any other player holes 8..15
      (index halves, not the parity rows). */
  function Sweep(b: BoardState, player: int): (r: BoardState)
    ensures player == 1 ==> forall i :: 0 <= i < TOTAL_HOLES ==> r.holes[i] == (if i < PLAYER_HOLES then EMPTY else b.holes[i])
    ensures player != 1 ==> forall i :: 0 <= i < TOTAL_HOLES ==> r.holes[i] == (if i < PLAYER_HOLES then b.holes[i] else EMPTY)
    ensures r.current == b.current
  {
    if player == 1 then BoardState(Zeros(8) + b.holes[PLAYER_HOLES..], b.p1 + Sum(b.holes[..PLAYER_HOLES]), b.p2, b.current)
    else BoardState(b.holes[..PLAYER_HOLES] + Zeros(8), b.p1, b.p2 + Sum(b.holes[PLAYER_HOLES..]), b.current)
  }

  /** The sweep moves the swept seeds from the board to the sweeper's score. */
  lemma SweepConserves(b: BoardState, player: int)
    requires Conserved(b)
    ensures var r := Sweep(b, player); Conserved(r) && r.p1 >= b.p1 && r.p2 >= b.p2
    ensures player == 1 ==> Sweep(b, player).p2 == b.p2
    ensures player != 1 ==> Sweep(b, player).p1 == b.p1
  {
    var low, high := b.holes[..PLAYER_HOLES], b.holes[PLAYER_HOLES..];
    assert b.holes == low + high;
    SumAppend(low, high);
    SumZeros(8);
    SumAppend(Zeros(8), high);
    SumAppend(low, Zeros(8));
  }

  /** The player to move owns no non-empty hole of their parity row. */
  predicate Stuck(b: BoardState)
  {
    (b.current == 1 && !HasMove(b, 1)) || (b.current == 2 && !HasMove(b, 2))
  }

  /** checkGameStatus, rules in its fixed priority order. */
  function CheckStatus(b: BoardState): Checked
  {
    if b.p1 >= 33 then Checked(GameStatus(true, Player1, Threshold), b)
    else if b.p2 >= 33 then Checked(GameStatus(true, Player2, Threshold), b)
    else if b.p1 == 32 && b.p2 == 32 then Checked(GameStatus(true, Draw, EvenSplit), b)
    else if Sum(b.holes) < 8 then Checked(GameStatus(true, Leader(b), FewSeeds), b)
    else if Stuck(b) then
      var a := Sweep(b, Opponent(b.current));
      Checked(GameStatus(true, Leader(a), NoMoves), a)
    else Checked(GameStatus(false, Nobody, NotOver), b)
  }

  /** Evaluating the status keeps the seed total, never lowers a score, changes the
      board only under the no-move rule, and reports a winner exactly when over. */
  lemma StatusConserves(b: BoardState)
    requires Conserved(b)
    ensures var c := CheckStatus(b);
      && Conserved(c.after)
      && c.after.p1 >= b.p1 && c.after.p2 >= b.p2
      && c.after.current == b.current
      && (c.status.reason != NoMoves ==> c.after == b)
      && (c.status.isOver <==> c.status.winner != Nobody)
  {
    if Stuck(b) {
      SweepConserves(b, Opponent(b.current));
    }
  }

  /** The first rule that holds decides: a player at 33 or more wins, then 32 each is a
      draw, then fewer than 8 seeds on the board go to the leader, then a player to
      move with no seed in their row loses the board to the opponent's sweep. */
  lemma StatusPriority(b: BoardState)
    ensures b.p1 >= 33 ==> CheckStatus(b).status == GameStatus(true, Player1, Threshold)
    ensures b.p1 < 33 && b.p2 >= 33 ==> CheckStatus(b).status == GameStatus(true, Player2, Threshold)
    ensures b.p1 == 32 && b.p2 == 32 ==> CheckStatus(b).status == GameStatus(true, Draw, EvenSplit)
    ensures b.p1 < 33 && b.p2 < 33 && Sum(b.holes) < 8 && !(b.p1 == 32 && b.p2 == 32) ==>
      CheckStatus(b) == Checked(GameStatus(true, Leader(b), FewSeeds), b)
    ensures b.p1 < 33 && b.p2 < 33 && Sum(b.holes) >= 8 && !(b.p1 == 32 && b.p2 == 32) && Stuck(b) ==>
      var a := Sweep(b, Opponent(b.current));
      CheckStatus(b) == Checked(GameStatus(true, Leader(a), NoMoves), a)
    ensures !CheckStatus(b).status.isOver <==>
      b.p1 < 33 && b.p2 < 33 && !(b.p1 == 32 && b.p2 == 32) && Sum(b.holes) >= 8 && !Stuck(b)
  {
  }

  /** Under the no-move rule the opponent of the stuck player sweeps an index half
      into their score; seeds in the other half stay on the board. */
  lemma NoMoveSweepsIndexHalf(b: BoardState)
    requires Conserved(b) && CheckStatus(b).status.reason == NoMoves
    ensures var a := CheckStatus(b).after;
      && (b.current == 1 ==> a.p2 == b.p2 + Sum(b.holes[PLAYER_HOLES..]) && a.holes == b.holes[..PLAYER_HOLES] + Zeros(8))
      && (b.current == 2 ==> a.p1 == b.p1 + Sum(b.holes[..PLAYER_HOLES]) && a.holes == Zeros(8) + b.holes[PLAYER_HOLES..])
  {
  }

  // ---------------------------------------------------------------------------
  // isWinningState and evaluateBoard

  /** The opponent of `player` has no seed of either colour in their parity row. */
  predicate IsWinningState(b: BoardState, player: int)
  {
    !HasMove(b, Opponent(player))
  }

  /** evaluateBoard: Integer.MAX_VALUE if Player 2 cannot move, else Integer.MIN_VALUE
      if Player 1 cannot move, else Player 1's lead. */
  function Evaluate(b: BoardState): (r: int)
    ensures r == MAX_VALUE <== !HasMove(b, 2)
    ensures HasMove(b, 2) && !HasMove(b, 1) ==> r == MIN_VALUE
    ensures HasMove(b, 1) && HasMove(b, 2) ==> r == b.p1 - b.p2
  {
    if IsWinningState(b, 1) then MAX_VALUE
    else if IsWinningState(b, 2) then MIN_VALUE
    else b.p1 - b.p2
  }

  /** On a conserved board the plain score difference never collides with the sentinels. */
  lemma EvaluateSentinels(b: BoardState)
    requires Conserved(b)
    ensures Evaluate(b) == MAX_VALUE <==> !HasMove(b, 2)
    ensures Evaluate(b) == MIN_VALUE <==> HasMove(b, 2) && !HasMove(b, 1)
    ensures HasMove(b, 1) && HasMove(b, 2) ==> -64 <= Evaluate(b) <= 64
  {
  }
}
