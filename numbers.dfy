/**
 * JavaScript numbers, idealised: a finite value is an exact real and NaN is kept as a value of
 * its own, because the ingestion path feeds `parseFloat` output, NaN included, straight into
 * the scorer. Every operation propagates NaN; every comparison with NaN is false.
 */
module Numbers {

  datatype Number = Finite(r: real) | NaN {

    /** `this + other` */
    function Plus(other: Number): (s: Number)
      ensures s.Finite? <==> this.Finite? && other.Finite?
      ensures s.Finite? ==> s.r == this.r + other.r
    {
      match (this, other)
      case (Finite(x), Finite(y)) => Finite(x + y)
      case _ => NaN
    }

    /** `this * c` for a constant `c` */
    function Times(c: real): (p: Number)
      ensures p.Finite? <==> this.Finite?
      ensures p.Finite? ==> p.r == this.r * c
    {
      match this
      case Finite(x) => Finite(x * c)
      case NaN => NaN
    }

    /** `this - c` for a constant `c` */
    function Minus(c: real): (d: Number)
      ensures d.Finite? <==> this.Finite?
      ensures d.Finite? ==> d.r + c == this.r
    {
      match this
      case Finite(x) => Finite(x - c)
      case NaN => NaN
    }

    /** `Math.abs(this)` */
    function Abs(): (a: Number)
      ensures a.Finite? <==> this.Finite?
      ensures a.Finite? ==> a.r >= 0.0 && (a.r == this.r || a.r == -this.r)
    {
      match this
      case Finite(x) => Finite(if x < 0.0 then -x else x)
      case NaN => NaN
    }

    /** `c - this` for a constant `c` */
    function SubtractedFrom(c: real): (d: Number)
      ensures d.Finite? <==> this.Finite?
      ensures d.Finite? ==> d.r == c - this.r
    {
      match this
      case Finite(x) => Finite(c - x)
      case NaN => NaN
    }

    /** `this > c`, false when this is NaN */
    predicate GreaterThan(c: real) {
      Finite? && r > c
    }
  }

  /** `a < b` on two numbers, false when either is NaN. */
  predicate Less(a: Number, b: Number) {
    a.Finite? && b.Finite? && a.r < b.r
  }
}
