/**
 * The numeric spin button of the shared UI components: the step the arrow
 * keys use (scaled by the Alt and Shift modifiers), the clamped display
 * precision, the validation of a candidate value, and the commit logic that
 * reports a value to the owner only when it is valid and new.
 */
module SpinButton {
  import opened Wrappers
  import opened JsRuntime

  /**
   * CoerceStepValue: Alt takes precedence and makes the step ten times
   * smaller; Shift alone makes it ten times larger; otherwise it is kept.
   */
  function CoerceStep(step: real, alt: bool, shift: bool): (r: real)
    ensures alt ==> r * 10.0 == step
    ensures !alt && shift ==> r == step * 10.0
    ensures !alt && !shift ==> r == step
  {
    if alt then step * 0.1
    else if shift then step * 10.0
    else step
  }

  /** A coerced step has the sign of the given step, and Alt always yields a smaller magnitude than Shift. */
  lemma CoerceStepOrder(step: real, alt: bool, shift: bool)
    requires step > 0.0
    ensures CoerceStep(step, alt, shift) > 0.0
    ensures CoerceStep(step, true, shift) < CoerceStep(step, false, false) < CoerceStep(step, false, true)
  {
  }

  /** The precision the display uses: the calculated precision clamped to [0, 4]. */
  function Precision(calculated: int): (p: int)
    ensures 0 <= p <= 4
    ensures 0 <= calculated <= 4 ==> p == calculated
    ensures calculated < 0 ==> p == 0
    ensures calculated > 4 ==> p == 4
  {
    if calculated > 4 then 4 else if calculated < 0 then 0 else calculated
  }

  /** The props the logic reads; the validator is a total predicate over numbers. */
  datatype Props = Props(min: Option<real>, max: Option<real>, step: Option<real>, forceInt: bool,
                         validator: Option<Double -> bool>)

  /** JavaScript `x < y` with a finite right side: false for NaN and +Infinity, true for -Infinity. */
  predicate Below(x: Double, y: real) {
    match x
    case Finite(v) => v < y
    case NegInf => true
    case _ => false
  }

  /** JavaScript `x > y` with a finite right side. */
  predicate Above(x: Double, y: real) {
    match x
    case Finite(v) => v > y
    case PosInf => true
    case _ => false
  }

  /** Number.isInteger: finite with no fractional part. */
  predicate IsInteger(x: Double) {
    x.Finite? && x.v == x.v.Floor as real
  }

  /** JavaScript `===` on numbers: NaN equals nothing, itself included. */
  predicate StrictEquals(x: Double, y: Double) {
    x == y && !x.NaN?
  }

  /**
   * validateValue: a value is rejected when it is below a given minimum,
   * above a given maximum, refused by a given validator, NaN, or, under
   * forceInt, not an integer.
   */
  function ValidateValue(p: Props, x: Double): (ok: bool)
    ensures ok <==>
      (p.min.None? || !Below(x, p.min.value))
      && (p.max.None? || !Above(x, p.max.value))
      && (p.validator.None? || p.validator.value(x))
      && !x.NaN?
      && (!p.forceInt || IsInteger(x))
  {
    var outOfBounds := (p.min.Some? && Below(x, p.min.value)) || (p.max.Some? && Above(x, p.max.value));
    var failsValidator := p.validator.Some? && !p.validator.value(x);
    var failsIntCheck := if p.forceInt then !IsInteger(x) else false;
    var invalid := outOfBounds || failsValidator || x.NaN? || failsIntCheck;
    !invalid
  }

  /** A valid value lies within the given bounds, as a number. */
  lemma ValidInBounds(p: Props, x: Double)
    requires ValidateValue(p, x)
    ensures !x.NaN?
    ensures p.min.Some? ==> !x.NegInf? && (x.Finite? ==> p.min.value <= x.v)
    ensures p.max.Some? ==> !x.PosInf? && (x.Finite? ==> x.v <= p.max.value)
    ensures p.forceInt ==> x.Finite?
  {
  }

  /** Whether tryCommitValue reports `x`, given the last committed value. */
  predicate ShouldCommit(p: Props, last: Double, x: Double) {
    ValidateValue(p, x) && !StrictEquals(x, last)
  }

  /** Once a value is committed it is the last committed value, and committing it again does nothing. */
  lemma CommitOnce(p: Props, last: Double, x: Double)
    requires ShouldCommit(p, last, x)
    ensures !ShouldCommit(p, x, x)
  {
  }

  /** A value different from the last committed one is committed exactly when it is valid. */
  lemma CommitNewValue(p: Props, last: Double, x: Double)
    requires x != last
    ensures ShouldCommit(p, last, x) <==> ValidateValue(p, x)
  {
  }

  /** The component's state: the local value, the last committed value, the focused modifier keys, and the onChange calls made. */
  class SpinButtonState {
    var value: Double
    var lastCommitted: Double
    var focusedAlt: bool
    var focusedShift: bool
    var committed: seq<Double>

    constructor (initial: Double)
      ensures value == initial && lastCommitted == initial
      ensures !focusedAlt && !focusedShift && committed == []
    {
      value := initial;
      lastCommitted := initial;
      focusedAlt := false;
      focusedShift := false;
      committed := [];
    }

    /** The step the arrow keys use, from the props' step (1 by default) and the modifiers held with or without focus. */
    function Step(p: Props, unfocusedAlt: bool, unfocusedShift: bool): (r: real)
      reads this
    {
      CoerceStep(p.step.GetOr(1.0), unfocusedAlt || focusedAlt, unfocusedShift || focusedShift)
    }

    /** The effect on a new props value: one different from the last committed value resets both values. */
    method PropValueChanged(v: Double)
      modifies this
      ensures StrictEquals(v, old(lastCommitted)) ==> value == old(value) && lastCommitted == old(lastCommitted)
      ensures !StrictEquals(v, old(lastCommitted)) ==> value == v && lastCommitted == v
      ensures committed == old(committed) && focusedAlt == old(focusedAlt) && focusedShift == old(focusedShift)
    {
      if !StrictEquals(v, lastCommitted) {
        lastCommitted := v;
        value := v;
      }
    }

    /** tryCommitValue: a valid value different from the last committed one becomes the last committed and is reported. */
    method TryCommit(p: Props, x: Double)
      modifies this
      ensures ShouldCommit(p, old(lastCommitted), x) ==> lastCommitted == x && committed == old(committed) + [x]
      ensures !ShouldCommit(p, old(lastCommitted), x) ==> lastCommitted == old(lastCommitted) && committed == old(committed)
      ensures value == old(value) && focusedAlt == old(focusedAlt) && focusedShift == old(focusedShift)
    {
      var valid := ValidateValue(p, x);
      if valid && !StrictEquals(x, lastCommitted) {
        lastCommitted := x;
        committed := committed + [x];
      }
    }

    /** handleChange: a change carrying no number or NaN is ignored; otherwise it becomes the local value and is offered for commit. */
    method HandleChange(p: Props, data: Option<Double>)
      modifies this
      ensures data.None? || data.value.NaN? ==>
        value == old(value) && lastCommitted == old(lastCommitted) && committed == old(committed)
      ensures data.Some? && !data.value.NaN? ==>
        value == data.value
        && committed == old(committed) + (if ShouldCommit(p, old(lastCommitted), data.value) then [data.value] else [])
        && lastCommitted == (if ShouldCommit(p, old(lastCommitted), data.value) then data.value else old(lastCommitted))
      ensures focusedAlt == old(focusedAlt) && focusedShift == old(focusedShift)
    {
      if data.Some? && !data.value.NaN? {
        value := data.value;
        TryCommit(p, data.value);
      }
    }

    /** handleKeyDown: Alt or Shift pressed while focused is remembered. */
    method KeyDown(key: string)
      modifies this
      ensures focusedAlt == (old(focusedAlt) || key == "Alt")
      ensures focusedShift == (old(focusedShift) || (key != "Alt" && key == "Shift"))
      ensures value == old(value) && lastCommitted == old(lastCommitted) && committed == old(committed)
    {
      if key == "Alt" {
        focusedAlt := true;
      } else if key == "Shift" {
        focusedShift := true;
      }
    }

    /**
     * handleKeyUp: apart from Enter, a released Alt or Shift is forgotten,
     * and the input's text, evaluated to a number (NaN when it does not
     * evaluate), becomes the local value and is offered for commit.
     */
    method KeyUp(p: Props, key: string, evaluated: Double)
      modifies this
      ensures key == "Enter" ==> value == old(value) && lastCommitted == old(lastCommitted) && committed == old(committed)
      ensures key == "Enter" ==> focusedAlt == old(focusedAlt) && focusedShift == old(focusedShift)
      ensures key != "Enter" ==>
        focusedAlt == (old(focusedAlt) && key != "Alt")
        && focusedShift == (old(focusedShift) && (key == "Alt" || key != "Shift"))
        && value == evaluated
        && committed == old(committed) + (if ShouldCommit(p, old(lastCommitted), evaluated) then [evaluated] else [])
        && lastCommitted == (if ShouldCommit(p, old(lastCommitted), evaluated) then evaluated else old(lastCommitted))
    {
      if key != "Enter" {
        if key == "Alt" {
          focusedAlt := false;
        } else if key == "Shift" {
          focusedShift := false;
        }
        value := evaluated;
        TryCommit(p, evaluated);
      }
    }
  }

  /** A value that evaluated to NaN is never committed, whatever the props. */
  lemma NaNNeverCommitted(p: Props, last: Double)
    ensures !ShouldCommit(p, last, NaN)
  {
  }
}
