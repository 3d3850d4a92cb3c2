/** Evaluations of positions: a finite score or one of the two infinite sentinels. */
module Scores {

  /** `NegInf` is a certain loss and `PosInf` a certain win for the searching agent. */
  datatype Score = NegInf | Fin(value: int) | PosInf

  /** The order of the extended integers. */
  predicate Le(a: Score, b: Score) {
    a.NegInf? || b.PosInf? || (a.Fin? && b.Fin? && a.value <= b.value)
  }

  predicate Lt(a: Score, b: Score) {
    !Le(b, a)
  }

  /** Two-argument `max`: the first argument unless the second is strictly larger. */
  function Max(a: Score, b: Score): (r: Score)
    ensures r == a || r == b
    ensures Le(a, r) && Le(b, r)
    ensures Lt(a, b) <==> r != a
  {
    if Lt(a, b) then b else a
  }

  /** Two-argument `min`: the first argument unless the second is strictly smaller. */
  function Min(a: Score, b: Score): (r: Score)
    ensures r == a || r == b
    ensures Le(r, a) && Le(r, b)
    ensures Lt(b, a) <==> r != a
  {
    if Lt(b, a) then b else a
  }
}
