/** Exact cents, rounding to the nearest cent, and sums of cents. */
module Money {

  /** `roundMoney`: Math.round sends an exact half towards plus infinity. */
  function Round(x: real): (r: int)
    ensures x - 0.5 < r as real <= x + 0.5
  {
    (x + 0.5).Floor
  }

  /** What the file comment promises instead. */
  function RoundHalfAwayFromZero(x: real): (r: int) {
    if x >= 0.0 then (x + 0.5).Floor else -((-x + 0.5).Floor)
  }

  /** The code meets its comment exactly off the negative halves. */
  lemma RoundMatchesCommentIff(x: real)
    ensures Round(x) == RoundHalfAwayFromZero(x) <==> !(x < 0.0 && x + 0.5 == (x + 0.5).Floor as real)
  {
  }

  lemma RoundIsNearest(x: real, n: int)
    requires n as real - 0.5 <= x < n as real + 0.5
    ensures Round(x) == n
  {
  }

  lemma RoundInt(n: int)
    ensures Round(n as real) == n
  {
  }

  lemma RoundShift(x: real, n: int)
    ensures Round(n as real + x) == n + Round(x)
  {
  }

  function Sum(s: seq<int>): int {
    if s == [] then 0 else Sum(s[..|s| - 1]) + s[|s| - 1]
  }

  lemma {:induction false} SumAdd(a: seq<int>, b: seq<int>, c: seq<int>)
    requires |a| == |b| == |c| && forall i | 0 <= i < |a| :: c[i] == a[i] + b[i]
    ensures Sum(c) == Sum(a) + Sum(b)
    decreases |a|
  {
    if a != [] {
      var n := |a| - 1;
      SumAdd(a[..n], b[..n], c[..n]);
    }
  }
}
