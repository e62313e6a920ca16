/** The sentiment card: the change against the previous period, the change as
    a percentage, when the trend badge shows, and what stands in for the value. */
module CardSentiment {
  import opened Wrappers

  /** `delta`: the difference when both values are present, 0 otherwise. */
  function Delta(curr: Option<real>, prev: Option<real>): (d: real)
    ensures curr.Some? && prev.Some? ==> d == curr.value - prev.value
    ensures curr.None? || prev.None? ==> d == 0.0
  {
    if curr.Some? && prev.Some? then curr.value - prev.value else 0.0
  }

  /** `percent`: the change relative to a present, non-zero previous value;
      undefined otherwise, so nothing is ever divided by zero. */
  function Percent(delta: real, prev: Option<real>): (p: Option<real>)
    ensures p.Some? <==> prev.Some? && prev.value != 0.0
    ensures p.Some? ==> p.value * prev.value == delta * 100.0
  {
    if prev.Some? && prev.value != 0.0 then Some(delta / prev.value * 100.0) else None
  }

  /** The badge appears once loading is over and both the percentage and the
      previous value are present. */
  predicate ShowsBadge(loading: bool, percent: Option<real>, prev: Option<real>) {
    !loading && percent.Some? && prev.Some?
  }

  /** The badge shows exactly when loading is over and a non-zero previous value
      exists; with a positive previous value its percentage has the sign of the
      change. */
  lemma BadgeWhenPrevious(loading: bool, curr: Option<real>, prev: Option<real>)
    ensures ShowsBadge(loading, Percent(Delta(curr, prev), prev), prev) <==>
      !loading && prev.Some? && prev.value != 0.0
    ensures var p := Percent(Delta(curr, prev), prev);
      p.Some? && prev.value > 0.0 ==> (p.value > 0.0 <==> Delta(curr, prev) > 0.0) && (p.value < 0.0 <==> Delta(curr, prev) < 0.0)
  {
    var p := Percent(Delta(curr, prev), prev);
    if p.Some? && prev.value > 0.0 {
      var d := Delta(curr, prev);
      assert p.value == d / prev.value * 100.0;
      if d > 0.0 {
        assert d / prev.value > 0.0;
      } else if d < 0.0 {
        assert d / prev.value < 0.0;
      } else {
        assert d / prev.value == 0.0;
      }
    }
  }

  /** What the value slot shows. */
  datatype ValueView = Spinner | Value(n: real) | Dash

  /** A spinner while loading, then the value, or a dash when there is none. */
  function ValueShown(loading: bool, curr: Option<real>): (v: ValueView)
    ensures v.Spinner? <==> loading
    ensures v.Value? <==> !loading && curr.Some?
    ensures v.Value? ==> v.n == curr.value
    ensures v.Dash? <==> !loading && curr.None?
  {
    if loading then Spinner
    else match curr
      case Some(n) => Value(n)
      case None => Dash
  }
}
