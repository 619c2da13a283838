/** When an identity provider's token is in date (`packages/server/src/actor-token.ts`, section 4.1 of RFC 7519). */
module TokenTimes {
  /** What the payload holds under the name of a numeric date: nothing, a finite number, or something else. */
  datatype Claim = Missing | Number(value: real) | Garbage

  datatype Claims = Claims(exp: Claim, nbf: Claim, iat: Claim)

  datatype Limits = Limits(maxLifetime: int, tolerance: int)

  /** The ranges the provider settings are checked against. */
  ghost predicate InRange(p: Limits) {
    1 <= p.maxLifetime <= 30 * 86400 && 0 <= p.tolerance <= 120
  }

  datatype Verdict = InDate | ExpMissing | Expired | NotYetValid | Iat | Lifetime

  /** The five checks, in the order they are made, at a whole second of the server's clock. */
  function Check(c: Claims, p: Limits, seconds: int): Verdict {
    var now, tolerance := seconds as real, p.tolerance as real;
    if !c.exp.Number? then ExpMissing
    else if now - tolerance >= c.exp.value then Expired
    else if c.nbf.Garbage? || (c.nbf.Number? && now + tolerance < c.nbf.value) then NotYetValid
    else if c.iat.Garbage? || (c.iat.Number? && c.iat.value > now + tolerance) then Iat
    else if c.exp.value - (if c.iat.Number? then c.iat.value else now) > p.maxLifetime as real + tolerance then Lifetime
    else InDate
  }

  predicate Accepts(c: Claims, p: Limits, seconds: int) {
    Check(c, p, seconds).InDate?
  }

  /** Some second can accept these claims as far as their form and their stated lifetime go. */
  predicate WellFormed(c: Claims, p: Limits) {
    && c.exp.Number? && !c.nbf.Garbage? && !c.iat.Garbage?
    && (c.iat.Number? ==> c.exp.value - c.iat.value <= (p.maxLifetime + p.tolerance) as real)
  }

  function Later(a: real, b: real): real {
    if a < b then b else a
  }

  /** The first instant of the window: not before `nbf` or `iat`, and without `iat` not before the longest life allowed
      would start. */
  function Opens(c: Claims, p: Limits): real
    requires WellFormed(c, p)
  {
    var tolerance := p.tolerance as real;
    var start := if c.iat.Number? then c.iat.value - tolerance else c.exp.value - p.maxLifetime as real - tolerance;
    if c.nbf.Number? then Later(start, c.nbf.value - tolerance) else start
  }

  function Closes(c: Claims, p: Limits): real
    requires WellFormed(c, p)
  {
    c.exp.value + p.tolerance as real
  }

  /** A token is in date exactly in one half-open window fixed by its claims, whatever order the checks are made in. */
  lemma AcceptedExactlyInWindow(c: Claims, p: Limits, seconds: int)
    ensures Accepts(c, p, seconds) <==> WellFormed(c, p) && Opens(c, p) <= seconds as real < Closes(c, p)
  {
    if WellFormed(c, p) {
      var start := if c.iat.Number? then c.iat.value - p.tolerance as real
                   else c.exp.value - p.maxLifetime as real - p.tolerance as real;
      assert Opens(c, p) <= seconds as real <==>
        start <= seconds as real && (c.nbf.Number? ==> c.nbf.value - p.tolerance as real <= seconds as real);
    }
  }

  /** What a refusal names is so, and of the claims before it nothing is amiss. */
  lemma VerdictNamesTheFault(c: Claims, p: Limits, seconds: int)
    ensures match Check(c, p, seconds)
      case InDate => WellFormed(c, p)
      case ExpMissing => !c.exp.Number?
      case Expired => c.exp.Number? && seconds as real >= c.exp.value + p.tolerance as real
      case NotYetValid =>
        && seconds as real < c.exp.value + p.tolerance as real
        && (c.nbf.Garbage? || (c.nbf.Number? && seconds as real < c.nbf.value - p.tolerance as real))
      case Iat =>
        && seconds as real < c.exp.value + p.tolerance as real && !c.nbf.Garbage?
        && (c.iat.Garbage? || (c.iat.Number? && seconds as real < c.iat.value - p.tolerance as real))
      case Lifetime =>
        && !c.nbf.Garbage? && !c.iat.Garbage?
        && c.exp.value > (p.maxLifetime + p.tolerance) as real
                         + if c.iat.Number? then c.iat.value else seconds as real
  {
  }

  /** The accepting seconds have no holes: between two of them every second accepts. */
  lemma AcceptedIsAnInterval(c: Claims, p: Limits, first: int, between: int, last: int)
    requires first <= between <= last
    requires Accepts(c, p, first) && Accepts(c, p, last)
    ensures Accepts(c, p, between)
  {
    AcceptedExactlyInWindow(c, p, first);
    AcceptedExactlyInWindow(c, p, between);
    AcceptedExactlyInWindow(c, p, last);
  }

  /** The longest the same claims can stay in date. */
  function LongestSpan(c: Claims, p: Limits): int {
    p.maxLifetime + (if c.iat.Number? then 3 else 2) * p.tolerance
  }

  /** However large `exp` is, one token is in date for less than the longest span, so with `iat` the tolerance counts
      three times: once before `iat`, once after `exp` and once in the lifetime itself. */
  lemma AcceptedSpan(c: Claims, p: Limits, first: int, last: int)
    requires Accepts(c, p, first) && Accepts(c, p, last)
    ensures last - first < LongestSpan(c, p)
  {
    AcceptedExactlyInWindow(c, p, first);
    AcceptedExactlyInWindow(c, p, last);
    assert Closes(c, p) - Opens(c, p) <= LongestSpan(c, p) as real;
  }

  /** The bound is the best one: for all settings, with and without `iat`, there are claims that two seconds one short
      of it accept. */
  lemma SpanIsReached(p: Limits, issued: int, withIat: bool) returns (c: Claims, first: int)
    requires InRange(p)
    ensures c.iat == if withIat then Number(issued as real) else Missing
    ensures first == issued - p.tolerance
    ensures Accepts(c, p, first) && Accepts(c, p, first + LongestSpan(c, p) - 1)
  {
    first := issued - p.tolerance;
    if withIat {
      c := Claims(Number((issued + p.maxLifetime + p.tolerance) as real), Missing, Number(issued as real));
    } else {
      c := Claims(Number((issued + p.maxLifetime) as real), Missing, Missing);
    }
    AcceptedExactlyInWindow(c, p, first);
    AcceptedExactlyInWindow(c, p, first + LongestSpan(c, p) - 1);
  }
}
