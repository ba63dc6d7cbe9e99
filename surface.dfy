/**
 * The progress indicator of `<admin-bar-surface>`: a numeric `progressValue`
 * is mapped to one of four visual states and a width in percent, and the end
 * of the progress animation sends a finished (`error` or `success`) state
 * back to `reset`.
 */
module Surface {

  /** The class the progress bar carries. */
  datatype ProgressState = Reset | Progress | Success | Error

  /** What the progress bar shows: its state and its width in percent. */
  datatype ProgressView = ProgressView(state: ProgressState, width: int)

  /**
   * The view a new `progressValue` produces: a negative value is an error, a
   * value of 100 or more a success, both drawn at full width; anything in
   * between is drawn as progress at its own width.
   */
  function ProgressFor(value: int): (r: ProgressView)
    ensures 0 <= r.width <= 100
    ensures r.state == Error <==> value < 0
    ensures r.state == Success <==> value >= 100
    ensures r.state == Progress <==> 0 <= value < 100
    ensures r.state != Reset
    ensures r.state == Progress ==> r.width == value
    ensures r.state != Progress ==> r.width == 100
  {
    if value < 0 then ProgressView(Error, 100)
    else if value >= 100 then ProgressView(Success, 100)
    else ProgressView(Progress, value)
  }

  /** The state after the progress animation ends: a finished state resets, any other is kept. */
  function AfterAnimationEnd(s: ProgressState): (r: ProgressState)
    ensures s == Error || s == Success ==> r == Reset
    ensures s == Progress || s == Reset ==> r == s
  {
    if s == Error || s == Success then Reset else s
  }

  /** A second animation end changes nothing more. */
  lemma AnimationEndIdempotent(s: ProgressState)
    ensures AfterAnimationEnd(AfterAnimationEnd(s)) == AfterAnimationEnd(s)
  {
  }

  /** The state of one `<admin-bar-surface>` that the progress logic reads and writes. */
  class AdminBarSurface {
    /** The `progress-value` property. */
    var progressValue: int
    /** Whether `progressValue` is in Lit's changed-properties map for the next update. */
    var progressValueChanged: bool
    /** `_progressState`. */
    var progressState: ProgressState
    /** `_progressWidth`, in percent. */
    var progressWidth: int

    /** The drawn width always lies between 0 and 100 percent. */
    predicate Valid()
      reads this
    {
      0 <= progressWidth <= 100
    }

    /**
     * A fresh surface: value 0, state `reset`, width 0. The initializer of
     * `progressValue` goes through its property accessor, so the first update
     * sees the property as changed (from `undefined`).
     */
    constructor ()
      ensures Valid()
      ensures progressValue == 0 && progressState == Reset && progressWidth == 0
      ensures progressValueChanged
    {
      progressValue := 0;
      progressValueChanged := true;
      progressState := Reset;
      progressWidth := 0;
    }

    /**
     * `willUpdate`: when `progressValue` is among the changed properties the
     * view is recomputed from it; otherwise nothing changes.
     */
    method WillUpdate(progressValueChanged: bool)
      requires Valid()
      modifies this`progressState, this`progressWidth
      ensures Valid()
      ensures progressValueChanged ==>
        ProgressView(progressState, progressWidth) == ProgressFor(progressValue)
      ensures !progressValueChanged ==>
        progressState == old(progressState) && progressWidth == old(progressWidth)
    {
      if progressValueChanged {
        progressWidth := 0;
        if progressValue < 0 {
          progressState := Error;
          progressWidth := 100;
        } else if progressValue >= 100 {
          progressState := Success;
          progressWidth := 100;
        } else if progressValue >= 0 && progressValue < 100 {
          progressState := Progress;
          progressWidth := progressValue;
        }
      }
    }

    /**
     * Assigning the `progress-value` property: the value is stored, and it
     * is recorded as changed only when it differs from the current one (Lit's
     * default `hasChanged`); a change already recorded stays recorded.
     */
    method SetProgressValue(value: int)
      modifies this`progressValue, this`progressValueChanged
      ensures progressValue == value
      ensures progressValueChanged == (old(progressValueChanged) || value != old(progressValue))
    {
      if value != progressValue {
        progressValueChanged := true;
      }
      progressValue := value;
    }

    /**
     * One Lit update cycle: `willUpdate` sees `progressValue` as changed iff a
     * change was recorded since the last cycle, and the record is then
     * cleared.
     */
    method PerformUpdate()
      requires Valid()
      modifies this`progressState, this`progressWidth, this`progressValueChanged
      ensures Valid()
      ensures !progressValueChanged
      ensures old(progressValueChanged) ==>
        ProgressView(progressState, progressWidth) == ProgressFor(progressValue)
      ensures !old(progressValueChanged) ==>
        progressState == old(progressState) && progressWidth == old(progressWidth)
    {
      WillUpdate(progressValueChanged);
      progressValueChanged := false;
    }

    /** `_onProgressAnimationEnd`: `error` and `success` go back to `reset`; the width is kept. */
    method OnProgressAnimationEnd()
      requires Valid()
      modifies this`progressState
      ensures Valid()
      ensures progressState == AfterAnimationEnd(old(progressState))
    {
      if progressState == Error || progressState == Success {
        progressState := Reset;
      }
    }
  }

  /**
   * The first update of a fresh surface draws `progress` at width 0, although
   * the value never left its initial 0.
   */
  method FirstUpdate() returns (view: ProgressView)
    ensures view == ProgressView(Progress, 0)
  {
    var surface := new AdminBarSurface();
    surface.PerformUpdate();
    view := ProgressView(surface.progressState, surface.progressWidth);
  }
}
