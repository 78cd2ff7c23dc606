/**
 The numbers the meter stores and shows. JavaScript numbers are modelled by exact
 reals, except that a division by zero yields a non-finite number (`Infinity`),
 which is kept apart so that its effect on drawing and on the readout is explicit.
 */
module Values {
  import opened Wrappers

  /** One metric sample: a finite number, or `Infinity`/`-Infinity`. */
  datatype Metric = Finite(value: real) | NonFinite

  /** One slot of the trailing history; `None` is an unset slot. */
  type Slot = Option<Metric>

  /** `1000 / d` in JavaScript: the rate, in frames per second, of a frame lasting `d` milliseconds. */
  function RateOf(d: real): (m: Metric)
    ensures m.Finite? <==> d != 0.0
    ensures m.Finite? ==> m.value * d == 1000.0
  {
    if d == 0.0 then NonFinite else Finite(1000.0 / d)
  }

  /** `m / k` for a finite non-zero `k`; an infinite dividend stays infinite. */
  function DivideBy(m: Metric, k: real): (r: Metric)
    requires k != 0.0
    ensures r.Finite? <==> m.Finite?
    ensures r.Finite? ==> r.value * k == m.value
  {
    match m
    case Finite(v) => Finite(v / k)
    case NonFinite => NonFinite
  }

  /** `m * k` for a finite non-zero `k`; an infinite factor stays infinite. */
  function MultiplyBy(m: Metric, k: real): (r: Metric)
    requires k != 0.0
    ensures r.Finite? <==> m.Finite?
    ensures r.Finite? ==> r.value == m.value * k
  {
    match m
    case Finite(v) => Finite(v * k)
    case NonFinite => NonFinite
  }

  /** Scaling back by the same non-zero factor undoes a division. */
  lemma MultiplyUndoesDivide(m: Metric, k: real)
    requires k != 0.0
    ensures MultiplyBy(DivideBy(m, k), k) == m
  {
    match m
    case Finite(v) =>
      assert v / k * k == v;
    case NonFinite =>
  }
}
