/**
 * Text helpers shared by the formats the program writes and reads back: decimal
 * digits and the numbers they denote, and reading the parts of a concatenation.
 */
module Text {
  /** One of the ASCII decimal digits `0` to `9`. */
  predicate IsDigit(c: char) {
    '0' <= c <= '9'
  }

  /** The digit that writes `d`. */
  function Digit(d: nat): (c: char)
    requires d < 10
    ensures IsDigit(c) && c as int - '0' as int == d
  {
    ('0' as int + d) as char
  }

  /** The number a digit writes. */
  function DigitValue(c: char): (v: nat)
    requires IsDigit(c)
  {
    c as int - '0' as int
  }

  /** The number a string of decimal digits denotes. */
  function DecimalValue(s: string): (n: nat)
    requires forall i :: 0 <= i < |s| ==> IsDigit(s[i])
  {
    if s == [] then 0
    else DecimalValue(s[..|s| - 1]) * 10 + DigitValue(s[|s| - 1])
  }

  /** The three leading parts of a concatenation are found again at their offsets. */
  lemma ThreePartsReadBack(a: string, b: string, c: string, rest: string)
    ensures var h := a + b + c + rest;
            && h[..|a|] == a && h[|a|..|a| + |b|] == b
            && h[|a| + |b|..|a| + |b| + |c|] == c && h[|a| + |b| + |c|..] == rest
  {
    var ab := a + b;
    var abc := ab + c;
    var h := abc + rest;
    assert h[..|abc|] == abc && h[|abc|..] == rest;
    assert h[..|a|] == abc[..|a|] == ab[..|a|];
    assert h[|a|..|ab|] == abc[|a|..|ab|] == ab[|a|..];
    assert h[|ab|..|abc|] == abc[|ab|..];
  }
}
