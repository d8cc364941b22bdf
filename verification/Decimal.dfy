/** Decimal integers: a codec that meets the contract of the number routines.  The
    routines themselves are foreign to the program; what the readers and writers rely on
    is only that a printed number, followed by something that does not go on with it,
    parses as itself and takes exactly the bytes printed.  Digits are printed from the
    most significant one on and evaluated from the left, with a sign in front of
    negative numbers. */
module Decimals {

  import opened Wrappers
  import opened JsonTypes

  predicate Digit(c: char) {
    '0' <= c <= '9'
  }

  function Weight(c: char): (d: nat)
    requires Digit(c)
  {
    c as int - '0' as int
  }

  function DigitOf(d: nat): (c: char)
    requires d < 10
    ensures Digit(c) && Weight(c) == d
  {
    (d + '0' as int) as char
  }

  function Digits(n: nat): (t: string)
    ensures t != []
  {
    if n < 10 then [DigitOf(n)] else Digits(n / 10) + [DigitOf(n % 10)]
  }

  /** The number a run of digits stands for. */
  function Evaluate(t: string): (n: nat)
    requires forall i :: 0 <= i < |t| ==> Digit(t[i])
  {
    if t == [] then 0 else 10 * Evaluate(t[..|t| - 1]) + Weight(t[|t| - 1])
  }

  lemma {:induction false} DigitsEvaluate(n: nat)
    ensures forall i :: 0 <= i < |Digits(n)| ==> Digit(Digits(n)[i])
    ensures Evaluate(Digits(n)) == n
  {
    if n >= 10 {
      DigitsEvaluate(n / 10);
      var t := Digits(n);
      assert t[..|t| - 1] == Digits(n / 10);
    } else {
      assert Evaluate([DigitOf(n)][..0]) == 0;
    }
  }

  function Spell(n: int): (t: string) {
    if n < 0 then "-" + Digits(-n) else Digits(n)
  }

  /** Where the digits from place i on end. */
  function DigitsEnd(t: string, i: nat): (j: nat)
    requires i <= |t|
    ensures i <= j <= |t| && forall k :: i <= k < j ==> Digit(t[k])
    decreases |t| - i
  {
    if i < |t| && Digit(t[i]) then DigitsEnd(t, i + 1) else i
  }

  function Parse(t: string): (r: Option<(int, nat)>) {
    var sign := if t != [] && t[0] == '-' then 1 else 0;
    var end := DigitsEnd(t, sign);
    var digits := t[sign..end];
    if digits == [] then None else
      var n: int := Evaluate(digits);
      Some((if sign == 1 then -n else n, end))
  }

  lemma {:induction false} DigitsEndAt(t: string, i: nat, j: nat)
    requires i <= j <= |t| && (forall k :: i <= k < j ==> Digit(t[k])) && (j < |t| ==> !Digit(t[j]))
    ensures DigitsEnd(t, i) == j
    decreases j - i
  {
    if i < j { DigitsEndAt(t, i + 1, j); }
  }

  /** Digits behind a sign of that length, with something else behind them. */
  lemma ParseDigits(t: string, sign: nat, digits: string, n: int)
    requires sign <= 1 && digits != [] && sign + |digits| <= |t| && t[sign..sign + |digits|] == digits
    requires (forall k :: 0 <= k < |digits| ==> Digit(digits[k])) && Evaluate(digits) == n
    requires DigitsEnd(t, sign) == sign + |digits| && (sign == 1 <==> t[0] == '-')
    ensures Parse(t) == Some((if sign == 1 then -n else n, sign + |digits|))
  {
  }

  lemma DigitsStop(t: string, sign: nat, digits: string)
    requires sign + |digits| <= |t| && t[sign..sign + |digits|] == digits
    requires forall k :: 0 <= k < |digits| ==> Digit(digits[k])
    requires sign + |digits| < |t| ==> !Digit(t[sign + |digits|])
    ensures DigitsEnd(t, sign) == sign + |digits|
  {
    forall k | sign <= k < sign + |digits| ensures Digit(t[k]) {
      assert t[k] == t[sign..sign + |digits|][k - sign];
    }
    DigitsEndAt(t, sign, sign + |digits|);
  }

  function Sign(t: string): (sign: nat)
    ensures sign <= |t|
  {
    if t != [] && t[0] == '-' then 1 else 0
  }

  /** What a text reads as depends on its digits and the sign before them. */
  lemma SameDigits(t: string, u: string, end: nat)
    requires end <= |t| && end <= |u| && t[..end] == u[..end] && end == DigitsEnd(t, Sign(t)) && Sign(t) < end
    requires end < |u| ==> !Digit(u[end])
    ensures Parse(u) == Parse(t)
  {
    var sign := Sign(t);
    assert t[0] == t[..end][0] && u[0] == u[..end][0];
    forall k | sign <= k < end ensures Digit(u[k]) {
      assert u[k] == u[..end][k] == t[..end][k];
    }
    DigitsEndAt(u, sign, end);
    assert u[sign..end] == u[..end][sign..] == t[..end][sign..] == t[sign..end];
  }

  lemma ParseFront(t: string)
    ensures FrontStands(DECIMAL, t)
  {
    var end := DigitsEnd(t, Sign(t));
    if Parse(t).Some? { SameDigits(t, t[..end], end); }
  }

  lemma ParseEnd(t: string, n: int, rest: string)
    ensures EndStands(DECIMAL, t, n, rest)
  {
    if NumberText(DECIMAL, t, n) && NumberEnds(rest) { SameDigits(t, t + rest, |t|); }
  }

  lemma ParseSpelled(n: int)
    ensures NumberText(DECIMAL, Spell(n), n)
  {
    var m: nat := if n < 0 then -n else n;
    var digits, sign, t := Digits(m), if n < 0 then 1 else 0, Spell(n);
    DigitsEvaluate(m);
    assert t[sign..sign + |digits|] == digits;
    assert t[0] == if n < 0 then '-' else digits[0];
    DigitsStop(t, sign, digits);
    ParseDigits(t, sign, digits, m);
  }

  lemma {:induction false} DigitsEndBlank(t: string, i: nat, c: char)
    requires i <= |t| && c <= ' '
    ensures DigitsEnd(t + [c], i) == DigitsEnd(t, i)
    decreases |t| - i
  {
    if i < |t| { DigitsEndBlank(t, i + 1, c); }
  }

  lemma ParseBlank(t: string, c: char)
    requires c <= ' '
    ensures Parse(t + [c]) == Parse(t)
  {
    var sign := if t != [] && t[0] == '-' then 1 else 0;
    DigitsEndBlank(t, sign, c);
    assert (t + [c])[sign..DigitsEnd(t, sign)] == t[sign..DigitsEnd(t, sign)];
    if t == [] { assert (t + [c])[0] == c; } else { assert (t + [c])[0] == t[0]; }
  }

  const DECIMAL := Codec(Spell, Parse)

  lemma DecimalIsLawful()
    ensures Lawful(DECIMAL)
  {
    forall n ensures NumberText(DECIMAL, DECIMAL.spell(n), n) { ParseSpelled(n); }
    forall t ensures FrontStands(DECIMAL, t) { ParseFront(t); }
    forall t, n, rest ensures EndStands(DECIMAL, t, n, rest) { ParseEnd(t, n, rest); }
    forall t, c | c <= ' ' ensures DECIMAL.parse(t + [c]) == DECIMAL.parse(t) {
      ParseBlank(t, c);
    }
  }
}
