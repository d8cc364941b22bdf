/** Pattern combinators: a pattern is asked at a place of a range and under a negation
    flag, says whether it matches, and where the match ends. */
module Patterns {

  datatype Class = Blank | Digit | Word | Char(c: char)

  datatype Pattern =
    | Of(kind: Class)
    | Not(p: Pattern)
    | And(p: Pattern, q: Pattern)
    | Or(p: Pattern, q: Pattern)
    | Minus(p: Pattern, q: Pattern)

  datatype Result = Result(matched: bool, at: nat)

  predicate InClass(k: Class, c: char) {
    match k
    case Blank => c == ' ' || c == '\t'
    case Digit => '0' <= c <= '9'
    case Word => '0' <= c <= '9' || 'A' <= c <= 'Z' || 'a' <= c <= 'z' || c == '_'
    case Char(d) => c == d
  }

  /** What a pattern means for a single character. */
  predicate Holds(p: Pattern, c: char) {
    match p
    case Of(k) => InClass(k, c)
    case Not(q) => !Holds(q, c)
    case And(q, r) => Holds(q, c) && Holds(r, c)
    case Or(q, r) => Holds(q, c) || Holds(r, c)
    case Minus(q, r) => Holds(q, c) && !Holds(r, c)
  }

  /** A range of a text. */
  predicate Within(t: string, begin: nat, end: nat) {
    begin <= end <= |t|
  }

  /** A class at the front of a range. */
  function MatchClass(k: Class, t: string, begin: nat, end: nat, negation: bool): (r: Result)
    requires Within(t, begin, end)
    ensures begin <= r.at <= end
  {
    if begin == end then Result(false, begin)
    else if InClass(k, t[begin]) != negation then Result(true, begin + 1)
    else Result(false, begin)
  }

  /** Negation is pushed down: it turns a conjunction, whose second part sees only what
      the first took, into a disjunction, whose second part goes on where the first
      gave up. */
  function Match(p: Pattern, t: string, begin: nat, end: nat, negation: bool): (r: Result)
    requires Within(t, begin, end)
    ensures begin <= r.at <= end
    decreases p
  {
    match p
    case Of(k) => MatchClass(k, t, begin, end, negation)
    case Not(q) => Match(q, t, begin, end, !negation)
    case And(q, r) =>
      var first := Match(q, t, begin, end, negation);
      if negation then (if first.matched then first else Match(r, t, first.at, end, negation))
      else (if first.matched then Match(r, t, begin, first.at, negation) else first)
    case Or(q, r) =>
      var first := Match(q, t, begin, end, negation);
      if negation then (if first.matched then Match(r, t, begin, first.at, negation) else first)
      else (if first.matched then first else Match(r, t, first.at, end, negation))
    case Minus(q, r) => // q & !r
      var first := Match(q, t, begin, end, negation);
      if negation then (if first.matched then first else Match(r, t, first.at, end, !negation))
      else (if first.matched then Match(r, t, begin, first.at, !negation) else first)
  }

  /** Under either flag a pattern takes one character exactly when its meaning, or its
      negation, holds of it; at the end of the range it takes none. */
  lemma {:induction false} MatchLaw(p: Pattern, t: string, begin: nat, end: nat, negation: bool)
    requires Within(t, begin, end)
    ensures Match(p, t, begin, end, negation) ==
      if begin < end && Holds(p, t[begin]) != negation then Result(true, begin + 1) else Result(false, begin)
    decreases p
  {
    match p
    case Of(_) =>
    case Not(q) => MatchLaw(q, t, begin, end, !negation);
    case And(q, r) =>
      MatchLaw(q, t, begin, end, negation);
      MatchLaw(r, t, begin, end, negation);
      if begin < end { MatchLaw(r, t, begin, begin + 1, negation); }
    case Or(q, r) =>
      MatchLaw(q, t, begin, end, negation);
      MatchLaw(r, t, begin, end, negation);
      if begin < end { MatchLaw(r, t, begin, begin + 1, negation); }
    case Minus(q, r) =>
      MatchLaw(q, t, begin, end, negation);
      MatchLaw(r, t, begin, end, !negation);
      if begin < end { MatchLaw(r, t, begin, begin + 1, !negation); }
  }

  /** The characters from begin to e match and the next, if any, does not. */
  predicate MaximalRun(p: Pattern, t: string, begin: nat, end: nat, e: nat)
    requires Within(t, begin, end)
  {
    begin <= e <= end && (forall k :: begin <= k < e ==> Holds(p, t[k])) && (e < end ==> !Holds(p, t[e]))
  }

  /** operator *: as many as there are, and none is a match. */
  method AnyNumberOf(p: Pattern, t: string, begin: nat, end: nat) returns (r: Result)
    requires Within(t, begin, end)
    ensures r.matched && MaximalRun(p, t, begin, end, r.at)
  {
    var at := begin;
    while true
      invariant begin <= at <= end && forall k :: begin <= k < at ==> Holds(p, t[k])
      decreases end - at
    {
      MatchLaw(p, t, at, end, false);
      var more := Match(p, t, at, end, false);
      if !more.matched { break; }
      at := more.at;
    }
    r := Result(true, at);
  }

  /** operator +: as many as there are, at least one. */
  method AtLeastOne(p: Pattern, t: string, begin: nat, end: nat) returns (r: Result)
    requires Within(t, begin, end)
    ensures MaximalRun(p, t, begin, end, r.at) && (r.matched <==> begin < r.at)
  {
    MatchLaw(p, t, begin, end, false);
    r := Match(p, t, begin, end, false);
    while r.matched
      invariant begin <= r.at <= end && (r.matched <==> begin < r.at)
      invariant forall k :: begin <= k < r.at ==> Holds(p, t[k])
      invariant !r.matched ==> MaximalRun(p, t, begin, end, r.at)
      decreases end - r.at
    {
      MatchLaw(p, t, r.at, end, false);
      var more := Match(p, t, r.at, end, false);
      if !more.matched { break; }
      r := Result(true, more.at);
    }
  }

  /** parser: a place in a text that can be moved. */
  class Parser {
    const text: string
    const end: nat
    var begin: nat

    constructor (text: string)
      ensures this.text == text && end == |text| && begin == 0
    {
      this.text, end, begin := text, |text|, 0;
    }

    /** find: the leftmost character from here on that matches; the end if none does. */
    method Find(p: Pattern) returns (from: nat, to: nat)
      requires Within(text, begin, end)
      ensures begin <= from <= to <= end
      ensures forall k :: begin <= k < from ==> !Holds(p, text[k])
      ensures if from < end then Holds(p, text[from]) && to == from + 1 else to == end
    {
      var it := begin;
      while true
        invariant begin <= it <= end && forall k :: begin <= k < it ==> !Holds(p, text[k])
        decreases end - it
      {
        MatchLaw(p, text, it, end, false);
        var result := Match(p, text, it, end, false);
        if result.matched { return it, result.at; }
        if result.at == end { return result.at, result.at; }
        it := it + 1;
      }
    }

    method MatchHere(p: Pattern) returns (r: Result)
      requires Within(text, begin, end)
      ensures r.matched <==> begin < end && Holds(p, text[begin])
      ensures r.at == if r.matched then begin + 1 else begin
    {
      MatchLaw(p, text, begin, end, false);
      r := Match(p, text, begin, end, false);
    }

    method Seek(it: nat)
      requires it <= end
      modifies this
      ensures begin == it
    {
      begin := it;
    }
  }
}
