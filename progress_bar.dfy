/** components/ProgressBar.tsx: a labelled bar whose width is the progress
    clamped to [0, 100], while its text and ARIA value show the raw progress. */
module ProgressBar {
  import opened Options

  /** `Math.min(100, Math.max(0, progress))`. */
  function ClampWidth(progress: int): (w: int)
    ensures 0 <= w <= 100
    ensures 0 <= progress <= 100 ==> w == progress
    ensures progress < 0 ==> w == 0
    ensures progress > 100 ==> w == 100
  {
    var atLeastZero := if progress > 0 then progress else 0;
    if atLeastZero < 100 then atLeastZero else 100
  }

  /** Clamping twice is clamping once. */
  lemma ClampIdempotent(progress: int)
    ensures ClampWidth(ClampWidth(progress)) == ClampWidth(progress)
  {
  }

  /** More progress never draws a shorter bar. */
  lemma ClampMonotone(p: int, q: int)
    requires p <= q
    ensures ClampWidth(p) <= ClampWidth(q)
  {
  }

  /** What the component draws. */
  datatype BarView = BarView(
    labelText: Option<string>,
    percentageText: Option<int>,
    width: int,
    ariaValueNow: int,
    ariaValueMin: int,
    ariaValueMax: int)

  /** `ProgressBar({progress, label, showPercentage = true})`.  The label row
      appears only for a non-empty label, and the percentage only inside it. */
  function Bar(progress: int, labelText: Option<string>, showPercentage: Option<bool>): (view: BarView)
    ensures view.width == ClampWidth(progress)
    ensures view.ariaValueNow == progress && view.ariaValueMin == 0 && view.ariaValueMax == 100
    ensures view.labelText.Some? <==> labelText.Some? && labelText.value != []
    ensures view.percentageText.Some? <==> view.labelText.Some? && showPercentage != Some(false)
    ensures view.percentageText.Some? ==> view.percentageText.value == progress
  {
    var shownLabel := if labelText.Some? && labelText.value != [] then labelText else None;
    var shownPercentage := shownLabel.Some? && showPercentage.GetOr(true);
    BarView(shownLabel, if shownPercentage then Some(progress) else None,
            ClampWidth(progress), progress, 0, 100)
  }
}
