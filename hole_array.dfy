/** The in-place steps of a move, shared by game/elements/Board.java and
    common/AwaleBoard.java, whose private helpers are line for line the same:
    take a colour out of a hole, sow it, capture backward, sweep a half.
    Each works on the sixteen-hole array and is proved against Rules. */
module HoleArray {
  import opened Rules

  /** Arithmetic of the blue walk: the hole after the k-th target is the next target,
      or the origin once a turn of the 15 other holes is complete. */
  lemma BlueWalk(start: int, k: nat)
    requires 0 <= start < TOTAL_HOLES && k >= 1
    ensures k % 15 == 0 ==> (BlueTarget(start, k) + 1) % TOTAL_HOLES == start
    ensures k % 15 != 0 ==> (BlueTarget(start, k) + 1) % TOTAL_HOLES == BlueTarget(start, k + 1)
    ensures k % 15 == 0 ==> (start + 1) % TOTAL_HOLES == BlueTarget(start, k + 1)
  {
    BlueTargetForm(start, k - 1);
    BlueTargetForm(start, k);
    NextQuotient15(k - 1);
  }

  lemma ModStep(x: int, d: int)
    ensures ((x % TOTAL_HOLES) + d) % TOTAL_HOLES == (x + d) % TOTAL_HOLES
  {
  }

  /** takeSeedsFromHole: every seed of colour c leaves the hole; the count is returned. */
  method TakeSeeds(a: array<Hole>, index: int, c: Color) returns (taken: nat)
    requires a.Length == TOTAL_HOLES && 0 <= index < TOTAL_HOLES
    modifies a
    ensures taken == old(a[index]).Count(c)
    ensures a[..] == old(a[..])[index := old(a[index]).Without(c)]
  {
    taken := a[index].Count(c);
    a[index] := a[index].Without(c);
  }

  /** sowBlueSeeds: one seed per successive hole, skipping the starting hole; returns
      the last position reached. */
  method SowBlueSeeds(a: array<Hole>, start: int, seeds: nat) returns (pos: int)
    requires a.Length == TOTAL_HOLES && 0 <= start < TOTAL_HOLES
    modifies a
    ensures a[..] == SowBlue(old(a[..]), start, seeds)
    ensures pos == BlueLanding(start, seeds)
  {
    ghost var initial: Ring := a[..];
    pos := start;
    var remaining: nat := seeds;
    while remaining > 0
      invariant 0 <= pos < TOTAL_HOLES && remaining <= seeds
      invariant a[..] == SowBlue(initial, start, seeds - remaining)
      invariant pos == start ==> (seeds - remaining) % 15 == 0 && (remaining > 0 || seeds == 0)
      invariant pos != start ==> seeds - remaining > 0 && pos == BlueTarget(start, seeds - remaining)
      decreases remaining, if pos == start then 0 else 1
    {
      ghost var placed := seeds - remaining;
      if placed > 0 {
        BlueWalk(start, placed);
      }
      pos := (pos + 1) % TOTAL_HOLES;
      if pos == start {
        continue;
      }
      a[pos] := a[pos].Plus(Blue, 1);
      remaining := remaining - 1;
    }
  }

  /** sowRedSeeds: seeds go to start+1, start+3, ... around the ring; returns the hole
      two before the next target, the last one filled. */
  method SowRedSeeds(a: array<Hole>, start: int, seeds: nat) returns (last: int)
    requires a.Length == TOTAL_HOLES && 0 <= start < TOTAL_HOLES
    modifies a
    ensures a[..] == SowRed(old(a[..]), start, seeds)
    ensures last == RedLanding(start, seeds)
  {
    ghost var initial: Ring := a[..];
    var opposite := (start + 1) % TOTAL_HOLES;
    var remaining: nat := seeds;
    while remaining > 0
      invariant remaining <= seeds
      invariant opposite == (start + 2 * (seeds - remaining) + 1) % TOTAL_HOLES
      invariant a[..] == SowRed(initial, start, seeds - remaining)
    {
      ghost var placed := seeds - remaining;
      assert opposite == RedTarget(start, placed + 1);
      a[opposite] := a[opposite].Plus(Red, 1);
      ModStep(start + 2 * placed + 1, 2);
      opposite := (opposite + 2) % TOTAL_HOLES;
      remaining := remaining - 1;
    }
    ModStep(start + 2 * seeds + 1, 14);
    last := (opposite - 2 + TOTAL_HOLES) % TOTAL_HOLES;
  }

  /** The loop of captureSeeds: returns the seeds taken; the caller credits them. */
  method CaptureSeeds(a: array<Hole>, lastHole: int) returns (captured: nat)
    requires a.Length == TOTAL_HOLES && 0 <= lastHole < TOTAL_HOLES
    modifies a
    ensures a[..] == CaptureRun(old(a[..]), lastHole).holes
    ensures captured == CaptureRun(old(a[..]), lastHole).seeds
  {
    ghost var target := CaptureRun(a[..], lastHole);
    captured := 0;
    var pos := lastHole;
    while true
      invariant 0 <= pos < TOTAL_HOLES
      invariant target.holes == CaptureRun(a[..], pos).holes
      invariant target.seeds == CaptureRun(a[..], pos).seeds + captured
      decreases CapturableCount(a[..])
    {
      var totalSeeds := a[pos].Size();
      if totalSeeds == 2 || totalSeeds == 3 {
        ClearDecreases(a[..], pos);
        captured := captured + totalSeeds;
        a[pos] := EMPTY;
      } else {
        break;
      }
      pos := (pos - 1 + TOTAL_HOLES) % TOTAL_HOLES;
    }
  }

  lemma SumExtend(s: seq<Hole>, low: int, i: int)
    requires 0 <= low <= i < |s|
    ensures Sum(s[low..i + 1]) == Sum(s[low..i]) + s[i].Size()
  {
    assert s[low..i + 1][..i - low] == s[low..i];
  }

  /** The loop of captureRemainingSeeds over holes low..low+7: empties them and
      returns how many seeds they held. */
  method SweepHalf(a: array<Hole>, low: int) returns (swept: nat)
    requires a.Length == TOTAL_HOLES && (low == 0 || low == PLAYER_HOLES)
    modifies a
    ensures forall j :: 0 <= j < TOTAL_HOLES ==> a[j] == if low <= j < low + PLAYER_HOLES then EMPTY else old(a[j])
    ensures swept == Sum(old(a[..])[low..low + PLAYER_HOLES])
  {
    ghost var s := a[..];
    swept := 0;
    for i := low to low + PLAYER_HOLES
      invariant forall j :: 0 <= j < TOTAL_HOLES ==> a[j] == if low <= j < i then EMPTY else s[j]
      invariant swept == Sum(s[low..i])
    {
      SumExtend(s, low, i);
      swept := swept + a[i].Size();
      a[i] := EMPTY;
    }
  }
}
