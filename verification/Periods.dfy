/** How many whole periods fit into a stretch of time; shared by the breaker and the rate cache. */
module Periods {

  /** The length of k periods, one after the other. */
  function Span(k: nat, period: real): real {
    if k == 0 then 0.0 else Span(k - 1, period) + period
  }

  /** If k periods fit into a stretch, k is at most the floor of their quotient. */
  lemma {:induction false} SpanFits(k: nat, period: real, length: real)
    requires period > 0.0 && Span(k, period) <= length
    ensures k <= (length / period).Floor
  {
    DivideThrough(length, period);
    if k > 0 { SpanFits(k - 1, period, length - period); }
  }

  lemma DivideThrough(t: real, c: real)
    requires c > 0.0
    ensures (t - c) / c == t / c - 1.0
    ensures t >= 0.0 ==> t / c >= 0.0
  {
    var q, r := t / c, (t - c) / c;
    assert q * c == t && r * c == t - c;
    assert (q - 1.0) * c == q * c - c;
    Cancel(q - 1.0, r, c);
  }

  lemma Cancel(x: real, y: real, c: real)
    requires c > 0.0 && x * c == y * c
    ensures x == y
  {
    assert x == x * c / c;
    assert y == y * c / c;
  }
}
