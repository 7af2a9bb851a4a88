/** game/player/Move.java: the record Move(hole, color) and its toString, the
    decimal hole followed by one colour letter. Decimal numerals are shared with the
    console parser. */
module Moves {
  import opened Rules

  predicate IsDigit(c: char)
  {
    '0' <= c <= '9'
  }

  predicate AllDigits(s: string)
  {
    forall i :: 0 <= i < |s| ==> IsDigit(s[i])
  }

  function DigitChar(d: nat): char
    requires d < 10
  {
    (d + '0' as int) as char
  }

  function DigitValue(c: char): nat
    requires IsDigit(c)
  {
    c as int - '0' as int
  }

  /** The decimal numeral of n, without leading zeros. */
  function Decimal(n: nat): (r: string)
    ensures 1 <= |r| && AllDigits(r)
    ensures |r| == 1 <==> n < 10
  {
    if n < 10 then [DigitChar(n)] else Decimal(n / 10) + [DigitChar(n % 10)]
  }

  /** The value of a digit string, as Integer.parseInt reads it. */
  function Value(s: string): nat
    requires AllDigits(s)
  {
    if s == [] then 0 else Value(s[..|s| - 1]) * 10 + DigitValue(s[|s| - 1])
  }

  /** Reading a numeral gives back its number. */
  lemma {:induction false} ValueOfDecimal(n: nat)
    ensures Value(Decimal(n)) == n
  {
    if n >= 10 {
      var r := Decimal(n);
      assert r[..|r| - 1] == Decimal(n / 10);
      ValueOfDecimal(n / 10);
    }
  }

  /** Integer.toString: a minus sign before the numeral of a negative number. */
  function IntString(x: int): string
  {
    if x < 0 then ['-'] + Decimal(-x) else Decimal(x)
  }

  /** The colour letter of toString: 'R' for RED, 'B' for every other colour. */
  function ColorChar(c: Color): (r: char)
    ensures r == 'R' <==> c == Red
    ensures r == 'B' <==> c != Red
  {
    if c == Red then 'R' else 'B'
  }

  /** toString: `hole + "" + colorChar`. */
  function ToString(m: Move): (s: string)
    ensures |s| >= 2 && s[|s| - 1] == ColorChar(m.color)
    ensures m.hole < 0 <==> s[0] == '-'
  {
    IntString(m.hole) + [ColorChar(m.color)]
  }

  /** The inverse of toString: the last character names the colour, the rest is an
      optional minus sign and a numeral. */
  function FromString(s: string): (r: Option<Move>)
    ensures r.Some? ==> |s| >= 2 && s[|s| - 1] == ColorChar(r.value.color)
  {
    if |s| < 2 || (s[|s| - 1] != 'R' && s[|s| - 1] != 'B') then None
    else
      var color := if s[|s| - 1] == 'R' then Red else Blue;
      var number := s[..|s| - 1];
      if number[0] == '-' && |number| >= 2 && AllDigits(number[1..]) then Some(Move(-(Value(number[1..]) as int), color))
      else if AllDigits(number) then Some(Move(Value(number), color))
      else None
  }

  /** toString is decoded back: its last character gives the colour and the rest the
      hole, for negative holes too. */
  lemma RoundTrip(m: Move)
    ensures FromString(ToString(m)) == Some(m)
  {
    var s := ToString(m);
    var number := s[..|s| - 1];
    assert number == IntString(m.hole);
    if m.hole < 0 {
      assert number[1..] == Decimal(-m.hole);
      ValueOfDecimal(-m.hole);
    } else {
      assert number[0] != '-';
      ValueOfDecimal(m.hole);
    }
  }

  /** Distinct moves have distinct strings. */
  lemma ToStringInjective(m1: Move, m2: Move)
    ensures ToString(m1) == ToString(m2) <==> m1 == m2
  {
    RoundTrip(m1);
    RoundTrip(m2);
  }

  /** toString of a hole of the board: one or two digits and the colour letter. */
  lemma ToStringShape(m: Move)
    requires 0 <= m.hole < TOTAL_HOLES
    ensures var s := ToString(m);
      && 2 <= |s| <= 3 && AllDigits(s[..|s| - 1]) && Value(s[..|s| - 1]) == m.hole
      && s[|s| - 1] == ColorChar(m.color)
  {
    var s := ToString(m);
    assert s[..|s| - 1] == Decimal(m.hole);
    ValueOfDecimal(m.hole);
    if m.hole >= 10 {
      assert Decimal(m.hole) == Decimal(m.hole / 10) + [DigitChar(m.hole % 10)];
    }
  }
}
