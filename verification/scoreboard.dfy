/** The scoreboard text: the score in decimal, left-padded with '0' to a
    fixed number of places. */
module Scoreboard {

  /** Number of places the scoreboard pads to. */
  const PLACES: nat := 10

  predicate IsDigit(c: char) { '0' <= c <= '9' }

  predicate AllDigits(s: string) { forall i :: 0 <= i < |s| ==> IsDigit(s[i]) }

  function Digit(d: nat): (c: char)
    requires d < 10
    ensures IsDigit(c) && (c as int) - ('0' as int) == d
  {
    (('0' as int) + d) as char
  }

  function DigitValue(c: char): nat
    requires IsDigit(c)
  {
    (c as int) - ('0' as int)
  }

  /** Decimal text of a non-negative integer, as string concatenation
      ('' + n) produces it: no sign, no leading zero except for 0 itself. */
  function DecimalString(n: nat): (s: string)
    ensures 1 <= |s| && AllDigits(s)
    ensures |s| > 1 ==> s[0] != '0'
  {
    if n < 10 then [Digit(n)] else DecimalString(n / 10) + [Digit(n % 10)]
  }

  /** The value a string of decimal digits denotes (the parsing partner of
      DecimalString). */
  function Value(s: string): nat
    requires AllDigits(s)
  {
    if |s| == 0 then 0 else Value(s[..|s| - 1]) * 10 + DigitValue(s[|s| - 1])
  }

  /** Prepends '0' while the text is shorter than `places`. */
  function PadLeft(s: string, places: nat): (r: string)
    ensures |r| == if |s| < places then places else |s|
    ensures r[|r| - |s|..] == s
    ensures forall i :: 0 <= i < |r| - |s| ==> r[i] == '0'
    decreases places - |s|
  {
    if |s| < places then
      var r := PadLeft("0" + s, places);
      assert r[|r| - |s|..] == r[|r| - |s| - 1..][1..];
      r
    else s
  }

  /** The text the scoreboard shows for a score. */
  function Board(score: nat): string
  {
    PadLeft(DecimalString(score), PLACES)
  }

  /** Computes the scoreboard text by prepending '0' in a loop. */
  method WriteScoreboard(score: nat) returns (board: string)
    ensures board == Board(score)
    ensures |board| == if |DecimalString(score)| < PLACES then PLACES else |DecimalString(score)|
    ensures |DecimalString(score)| >= PLACES ==> board == DecimalString(score)
  {
    board := DecimalString(score);
    while |board| < PLACES
      invariant PadLeft(board, PLACES) == Board(score)
      decreases PLACES - |board|
    {
      board := "0" + board;
    }
  }

  /** Parsing the decimal text gives the number back. */
  lemma {:induction false} ValueOfDecimal(n: nat)
    ensures Value(DecimalString(n)) == n
  {
    var s := DecimalString(n);
    if n >= 10 {
      ValueOfDecimal(n / 10);
      assert s[..|s| - 1] == DecimalString(n / 10);
    }
  }

  /** One leading '0' does not change the value of a digit string. */
  lemma {:induction false} LeadingZero(s: string)
    requires AllDigits(s)
    ensures AllDigits("0" + s) && Value("0" + s) == Value(s)
    decreases |s|
  {
    if |s| > 0 {
      var init := s[..|s| - 1];
      LeadingZero(init);
      assert ("0" + s)[..|s|] == "0" + init;
    }
  }

  /** Padding keeps the value. */
  lemma {:induction false} PadLeftValue(s: string, places: nat)
    requires AllDigits(s)
    ensures AllDigits(PadLeft(s, places)) && Value(PadLeft(s, places)) == Value(s)
    decreases places - |s|
  {
    if |s| < places {
      LeadingZero(s);
      PadLeftValue("0" + s, places);
    }
  }

  /** The scoreboard reads back as the score: it is all digits, at least
      PLACES long, and its value is the score. */
  lemma BoardRoundTrip(score: nat)
    ensures |Board(score)| >= PLACES
    ensures AllDigits(Board(score)) && Value(Board(score)) == score
  {
    ValueOfDecimal(score);
    PadLeftValue(DecimalString(score), PLACES);
  }
}
