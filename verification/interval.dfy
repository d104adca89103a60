/** Closed real intervals whose bounds may be infinite (src/interval.h). */
module Intervals {
  import opened Options

  /** A `double` bound: a real number or one of the two infinities. NaN is not modelled;
      the one place the source can produce it, `size()` of an interval with two equal
      infinite bounds, yields None. */
  datatype Ext = NegInf | Fin(v: real) | PosInf

  predicate Le(a: Ext, b: Ext)
  {
    match (a, b)
    case (NegInf, _) => true
    case (_, PosInf) => true
    case (Fin(x), Fin(y)) => x <= y
    case _ => false
  }

  predicate Lt(a: Ext, b: Ext) { !Le(b, a) }

  /** `fmin` and `fmax` on bounds. */
  function Min(a: Ext, b: Ext): Ext { if Le(a, b) then a else b }

  function Max(a: Ext, b: Ext): Ext { if Le(a, b) then b else a }

  /** Adding a finite number: infinities absorb it. */
  function Plus(a: Ext, d: real): Ext
  {
    match a
    case Fin(x) => Fin(x + d)
    case _ => a
  }

  /** `a - b`; None when both are the same infinity (IEEE gives NaN). */
  function Diff(a: Ext, b: Ext): Option<Ext>
  {
    match (a, b)
    case (Fin(x), Fin(y)) => Some(Fin(x - y))
    case (PosInf, PosInf) => None
    case (NegInf, NegInf) => None
    case (PosInf, _) => Some(PosInf)
    case (NegInf, _) => Some(NegInf)
    case (Fin(_), PosInf) => Some(NegInf)
    case (Fin(_), NegInf) => Some(PosInf)
  }

  /** Multiplying by a non-zero finite number; a negative factor swaps the infinities. */
  function Times(a: Ext, k: real): Ext
    requires k != 0.0
  {
    match a
    case Fin(x) => Fin(x * k)
    case PosInf => if k > 0.0 then PosInf else NegInf
    case NegInf => if k > 0.0 then NegInf else PosInf
  }

  /** Facts about the order on bounds used by the bounding-box proofs. */
  lemma LeTransitive(a: Ext, b: Ext, c: Ext)
    requires Le(a, b) && Le(b, c)
    ensures Le(a, c)
  {
  }

  lemma LtBounds(a: Ext, b: Ext, c: Ext)
    ensures Lt(a, b) ==> Le(a, b)
    ensures Lt(a, b) && Le(b, c) ==> Lt(a, c)
    ensures Le(a, b) && Lt(b, c) ==> Lt(a, c)
  {
  }

  lemma MaxMinBounds(a: Ext, b: Ext, c: Ext)
    ensures Le(a, Max(a, b)) && Le(b, Max(a, b)) && Le(Min(a, b), a) && Le(Min(a, b), b)
    ensures Lt(Max(a, b), c) <==> Lt(a, c) && Lt(b, c)
    ensures Lt(c, Min(a, b)) <==> Lt(c, a) && Lt(c, b)
  {
  }

  /** Between two bounds in strict order lies a real number. */
  lemma Between(a: Ext, b: Ext) returns (t: real)
    requires Lt(a, b)
    ensures Lt(a, Fin(t)) && Lt(Fin(t), b)
  {
    match (a, b)
    case (Fin(x), Fin(y)) => t := (x + y) / 2.0;
    case (Fin(x), _) => t := x + 1.0;
    case (_, Fin(y)) => t := y - 1.0;
    case _ => t := 0.0;
  }

  datatype Interval = Interval(min: Ext, max: Ext) {
    /** `contains`: both bounds inclusive. */
    predicate Contains(x: real) { Le(min, Fin(x)) && Le(Fin(x), max) }

    /** `surrounds`: both bounds exclusive. */
    predicate Surrounds(x: real) { Lt(min, Fin(x)) && Lt(Fin(x), max) }

    /** `clamp`: below the minimum gives the minimum, above the maximum the maximum. */
    function Clamp(x: real): (r: Ext)
      ensures Le(min, max) ==> Le(min, r) && Le(r, max)
      ensures Contains(x) ==> r == Fin(x)
    {
      if Lt(Fin(x), min) then min
      else if Lt(max, Fin(x)) then max
      else Fin(x)
    }

    /** `size`: `max - min`. */
    function Size(): Option<Ext> { Diff(max, min) }

    /** `expand(delta)`: widens by `delta / 2` on either side. */
    function Expand(delta: real): Interval
    {
      var padding := delta / 2.0;
      Interval(Plus(min, -padding), Plus(max, padding))
    }
  }

  /** The default constructor and the static `empty`: `[+inf, -inf]`. */
  function Empty(): Interval { Interval(PosInf, NegInf) }

  /** The static `universe`: `[-inf, +inf]`. */
  function Universe(): Interval { Interval(NegInf, PosInf) }

  /** The two-interval constructor: the smallest interval around both. */
  function Hull(a: Interval, b: Interval): (r: Interval)
    ensures forall x :: a.Contains(x) || b.Contains(x) ==> r.Contains(x)
  {
    Interval(Min(a.min, b.min), Max(a.max, b.max))
  }

  /** `ival + displacement`. */
  function Shift(ival: Interval, d: real): Interval
  {
    Interval(Plus(ival.min, d), Plus(ival.max, d))
  }

  /** `displacement + ival`: the same interval as `ival + displacement`. */
  function ShiftLeft(d: real, ival: Interval): (r: Interval)
    ensures r == Shift(ival, d)
  {
    Shift(ival, d)
  }

  lemma EmptyContainsNothing(x: real)
    ensures !Empty().Contains(x) && !Empty().Surrounds(x)
  {
  }

  lemma UniverseSurroundsEverything(x: real)
    ensures Universe().Surrounds(x) && Universe().Contains(x)
  {
  }

  lemma SurroundsImpliesContains(i: Interval, x: real)
    ensures i.Surrounds(x) ==> i.Contains(x)
  {
  }

  /** On an ordered interval with finite bounds clamping yields a member, and a second clamp
      changes nothing. */
  lemma ClampIntoInterval(i: Interval, x: real)
    requires i.min.Fin? && i.max.Fin? && Le(i.min, i.max)
    ensures i.Clamp(x).Fin? && i.Contains(i.Clamp(x).v)
    ensures i.Clamp(i.Clamp(x).v) == i.Clamp(x)
  {
  }

  /** Below the interval clamping gives the minimum, above it the maximum. */
  lemma ClampOutside(i: Interval, x: real)
    ensures Lt(Fin(x), i.min) ==> i.Clamp(x) == i.min
    ensures Le(i.min, i.max) && Lt(i.max, Fin(x)) ==> i.Clamp(x) == i.max
  {
  }

  /** The union with the empty interval, on either side, is the identity. */
  lemma HullWithEmpty(a: Interval)
    ensures Hull(a, Empty()) == a && Hull(Empty(), a) == a
  {
  }

  lemma HullCommutative(a: Interval, b: Interval)
    ensures Hull(a, b) == Hull(b, a)
  {
  }

  /** Every interval containing both arguments contains their union. */
  lemma HullLeast(a: Interval, b: Interval, c: Interval)
    requires Le(c.min, a.min) && Le(c.min, b.min) && Le(a.max, c.max) && Le(b.max, c.max)
    ensures Le(c.min, Hull(a, b).min) && Le(Hull(a, b).max, c.max)
  {
  }

  /** Expanding a finite interval adds `delta` to its size and keeps its midpoint. */
  lemma ExpandSizeAndMidpoint(i: Interval, delta: real)
    requires i.min.Fin? && i.max.Fin?
    ensures i.Expand(delta).Size() == Some(Fin(i.max.v - i.min.v + delta))
    ensures i.Expand(delta).min.v + i.Expand(delta).max.v == i.min.v + i.max.v
  {
  }

  /** Shifting keeps the size and moves membership with it. */
  lemma ShiftProperties(i: Interval, d: real, x: real)
    ensures Shift(i, d).Size() == i.Size()
    ensures i.Contains(x) <==> Shift(i, d).Contains(x + d)
  {
  }
}
