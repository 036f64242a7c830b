/**
 The early-exit linear membership scan that both Engram builds write out by
 hand twice: once over the list of primes already handed out, and once over
 the configured layer ids.
 */
module LinearScan {

  /** Scans `xs[i..]` front to back and stops at the first element equal to `x`. */
  function ScanFrom(xs: seq<int>, x: int, i: nat): (found: bool)
    requires i <= |xs|
    ensures found <==> x in xs[i..]
    decreases |xs| - i
  {
    if i == |xs| then false
    else if xs[i] == x then true
    else ScanFrom(xs, x, i + 1)
  }

  /** The whole-sequence scan decides sequence membership. */
  function Contains(xs: seq<int>, x: int): (found: bool)
    ensures found <==> x in xs
  {
    assert xs[0..] == xs;
    ScanFrom(xs, x, 0)
  }
}
