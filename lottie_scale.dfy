/**
 * The two scale factors between the animation and the container it plays
 * in: the canvas scale that fits the animation inside the container, and
 * the atlas scale, the same but never below 1, so that sprites are never
 * rasterised below their native size. Arithmetic follows JavaScript
 * numbers: dividing by zero gives an infinity or NaN, and Math.min and
 * Math.max propagate NaN.
 */
module LottieScale {
  import opened Wrappers
  import opened JsRuntime

  /** JavaScript `<=` on numbers: false whenever NaN is involved. */
  predicate LessEq(x: Double, y: Double) {
    match (x, y)
    case (NaN, _) => false
    case (_, NaN) => false
    case (NegInf, _) => true
    case (_, PosInf) => true
    case (Finite(a), Finite(b)) => a <= b
    case _ => false
  }

  /** JavaScript `x / y` for finite operands (the sign of a zero divisor is taken as positive). */
  function Divide(x: real, y: real): (r: Double)
    ensures y != 0.0 ==> r == Finite(x / y)
    ensures y == 0.0 ==> (r.NaN? <==> x == 0.0)
  {
    if y != 0.0 then Finite(x / y)
    else if x > 0.0 then PosInf
    else if x < 0.0 then NegInf
    else NaN
  }

  /** Math.min of two numbers: NaN if either is NaN, otherwise the smaller one. */
  function MathMin(a: Double, b: Double): (r: Double)
    ensures r.NaN? <==> a.NaN? || b.NaN?
    ensures !r.NaN? ==> (r == a || r == b) && LessEq(r, a) && LessEq(r, b)
  {
    if a.NaN? || b.NaN? then NaN
    else if LessEq(a, b) then a
    else b
  }

  /** Math.max of two numbers: NaN if either is NaN, otherwise the larger one. */
  function MathMax(a: Double, b: Double): (r: Double)
    ensures r.NaN? <==> a.NaN? || b.NaN?
    ensures !r.NaN? ==> (r == a || r == b) && LessEq(a, r) && LessEq(b, r)
  {
    if a.NaN? || b.NaN? then NaN
    else if LessEq(a, b) then b
    else a
  }

  datatype ScaleFactors = ScaleFactors(canvasScale: Double, atlasScale: Double)

  /** The animation, scaled by `k`, fits inside the container. */
  predicate Fits(k: real, animationWidth: real, animationHeight: real, clientWidth: nat, clientHeight: nat) {
    k * animationWidth <= clientWidth as real && k * animationHeight <= clientHeight as real
  }

  /**
   * CalculateScaleFactors. Without both animation dimensions both scales
   * are 1. With positive dimensions the canvas scale is the largest scale
   * at which the animation fits in the container. The atlas scale is the
   * canvas scale raised to at least 1, and NaN exactly when it is.
   */
  function CalculateScaleFactors(animationWidth: Option<real>, animationHeight: Option<real>,
                                 clientWidth: nat, clientHeight: nat): (s: ScaleFactors)
    ensures animationWidth.None? || animationHeight.None? ==> s == ScaleFactors(Finite(1.0), Finite(1.0))
    ensures (animationWidth.Some? && animationHeight.Some? && animationWidth.value > 0.0 && animationHeight.value > 0.0
             ==> s.canvasScale.Finite?
                 && Fits(s.canvasScale.v, animationWidth.value, animationHeight.value, clientWidth, clientHeight)
                 && (s.canvasScale.v * animationWidth.value == clientWidth as real
                     || s.canvasScale.v * animationHeight.value == clientHeight as real))
    ensures s.atlasScale.NaN? <==> s.canvasScale.NaN?
    ensures !s.canvasScale.NaN? ==> LessEq(Finite(1.0), s.atlasScale)
    ensures LessEq(Finite(1.0), s.canvasScale) ==> s.atlasScale == s.canvasScale
    ensures !s.canvasScale.NaN? && !LessEq(Finite(1.0), s.canvasScale) ==> s.atlasScale == Finite(1.0)
  {
    if animationWidth.None? || animationHeight.None? then ScaleFactors(Finite(1.0), Finite(1.0))
    else
      var horizontalScale := Divide(clientWidth as real, animationWidth.value);
      var verticalScale := Divide(clientHeight as real, animationHeight.value);
      var minScale := MathMin(verticalScale, horizontalScale);
      ScaleFactors(minScale, MathMax(minScale, Finite(1.0)))
  }

  /** No larger scale fits: the canvas scale is the greatest scale at which the animation fits. */
  lemma CanvasScaleGreatest(animationWidth: real, animationHeight: real, clientWidth: nat, clientHeight: nat, k: real)
    requires animationWidth > 0.0 && animationHeight > 0.0
    requires Fits(k, animationWidth, animationHeight, clientWidth, clientHeight)
    ensures var s := CalculateScaleFactors(Some(animationWidth), Some(animationHeight), clientWidth, clientHeight);
      s.canvasScale.Finite? && k <= s.canvasScale.v
  {
    var s := CalculateScaleFactors(Some(animationWidth), Some(animationHeight), clientWidth, clientHeight);
    var c := s.canvasScale.v;
    if c * animationWidth == clientWidth as real {
      assert k * animationWidth <= c * animationWidth;
    } else {
      assert k * animationHeight <= c * animationHeight;
    }
  }

  /**
   * The canvas scale is NaN exactly when a dimension of the animation and
   * of the container are both zero; a zero animation dimension alone
   * leaves the other direction to decide.
   */
  lemma CanvasScaleNaN(animationWidth: real, animationHeight: real, clientWidth: nat, clientHeight: nat)
    ensures var s := CalculateScaleFactors(Some(animationWidth), Some(animationHeight), clientWidth, clientHeight);
      s.canvasScale.NaN? <==> (animationWidth == 0.0 && clientWidth == 0) || (animationHeight == 0.0 && clientHeight == 0)
  {
  }

  /** A container larger than the animation in both directions scales it up, and the atlas follows. */
  lemma LargerContainerScalesUp(animationWidth: real, animationHeight: real, clientWidth: nat, clientHeight: nat)
    requires 0.0 < animationWidth <= clientWidth as real && 0.0 < animationHeight <= clientHeight as real
    ensures var s := CalculateScaleFactors(Some(animationWidth), Some(animationHeight), clientWidth, clientHeight);
      s.canvasScale.Finite? && s.canvasScale.v >= 1.0 && s.atlasScale == s.canvasScale
  {
    var s := CalculateScaleFactors(Some(animationWidth), Some(animationHeight), clientWidth, clientHeight);
    CanvasScaleGreatest(animationWidth, animationHeight, clientWidth, clientHeight, 1.0);
  }
}
