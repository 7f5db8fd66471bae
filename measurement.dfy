/**
 * The measurement pass of CircleView (onMeasure, measureWidth, measureHeight).
 *
 * A measure spec is taken already decoded into a mode and a size. Each axis takes the
 * spec's size when the mode is EXACTLY and otherwise falls back to the inset size the
 * view stored on the previous pass; the stored size then becomes the measured size minus
 * twice the border width, while the un-inset size is what the view reports to its parent.
 */
module Measurement {

  datatype Mode = Exactly | AtMost | Unspecified

  datatype MeasureSpec = MeasureSpec(mode: Mode, size: nat)

  /** The two axes; the lemmas below are stated once for both. */
  datatype Axis = Width | Height

  /**
   * What one measure pass leaves behind: the inset sizes the view keeps in its own fields
   * (viewWidth, viewHeight) and the sizes it reported through setMeasuredDimension.
   */
  datatype MeasureState = MeasureState(viewWidth: int, viewHeight: int, measuredWidth: int, measuredHeight: int)

  /** One pass: the width spec and the height spec the parent hands to onMeasure. */
  datatype Pass = Pass(width: MeasureSpec, height: MeasureSpec)

  /** A view that has never been measured: Java's zero-initialised int fields. */
  const Unmeasured := MeasureState(0, 0, 0, 0)

  /** The shared rule of measureWidth and measureHeight: the exact size, or the stored fallback. */
  function Resolve(spec: MeasureSpec, fallback: int): int
  {
    if spec.mode == Exactly then spec.size else fallback
  }

  function MeasureWidth(spec: MeasureSpec, viewWidth: int): int
  {
    Resolve(spec, viewWidth)
  }

  /** The width spec is passed along by onMeasure but never consulted. */
  function MeasureHeight(heightSpec: MeasureSpec, widthSpec: MeasureSpec, viewHeight: int): int
  {
    Resolve(heightSpec, viewHeight)
  }

  /** One call of onMeasure on a view whose border width is borderWidth. */
  function Measure(s: MeasureState, borderWidth: int, widthSpec: MeasureSpec, heightSpec: MeasureSpec): MeasureState
  {
    var width := MeasureWidth(widthSpec, s.viewWidth);
    var height := MeasureHeight(heightSpec, widthSpec, s.viewHeight);
    MeasureState(width - borderWidth * 2, height - borderWidth * 2, width, height)
  }

  /** Successive onMeasure calls, first pass first. */
  function MeasureAll(s: MeasureState, borderWidth: int, passes: seq<Pass>): MeasureState
    decreases |passes|
  {
    if passes == [] then s
    else MeasureAll(Measure(s, borderWidth, passes[0].width, passes[0].height), borderWidth, passes[1..])
  }

  function SpecOn(p: Pass, a: Axis): MeasureSpec
  {
    match a
    case Width => p.width
    case Height => p.height
  }

  function StoredOn(s: MeasureState, a: Axis): int
  {
    match a
    case Width => s.viewWidth
    case Height => s.viewHeight
  }

  function MeasuredOn(s: MeasureState, a: Axis): int
  {
    match a
    case Width => s.measuredWidth
    case Height => s.measuredHeight
  }

  /**
   * A pass treats each axis on its own: the reported size is the exact size or the
   * previously stored one, and the stored size is the reported one inset on both sides.
   */
  lemma MeasureAxis(s: MeasureState, borderWidth: int, p: Pass, a: Axis)
    ensures var t := Measure(s, borderWidth, p.width, p.height);
      && MeasuredOn(t, a) == (if SpecOn(p, a).mode == Exactly then SpecOn(p, a).size else StoredOn(s, a))
      && StoredOn(t, a) == MeasuredOn(t, a) - 2 * borderWidth
  {
  }

  /** An EXACTLY spec of size n makes the reported size n and the stored size n - 2*borderWidth. */
  lemma ExactSpecSetsSize(s: MeasureState, borderWidth: int, p: Pass, a: Axis)
    requires SpecOn(p, a).mode == Exactly
    ensures var t := Measure(s, borderWidth, p.width, p.height);
      && MeasuredOn(t, a) == SpecOn(p, a).size
      && StoredOn(t, a) == SpecOn(p, a).size - 2 * borderWidth
  {
    MeasureAxis(s, borderWidth, p, a);
  }

  /**
   * Any other spec reports the old stored size and shrinks the stored size by twice the
   * border width; so with no border the stored size is left as it was.
   */
  lemma NonExactSpecFallsBack(s: MeasureState, borderWidth: int, p: Pass, a: Axis)
    requires SpecOn(p, a).mode != Exactly
    ensures var t := Measure(s, borderWidth, p.width, p.height);
      && MeasuredOn(t, a) == StoredOn(s, a)
      && StoredOn(t, a) == StoredOn(s, a) - 2 * borderWidth
      && (borderWidth == 0 ==> StoredOn(t, a) == StoredOn(s, a))
  {
    MeasureAxis(s, borderWidth, p, a);
  }

  /** The height measured depends on the height spec and the stored height alone. */
  lemma HeightIgnoresWidthSpec(s: MeasureState, s': MeasureState, borderWidth: int, w: MeasureSpec, w': MeasureSpec, h: MeasureSpec)
    requires s.viewHeight == s'.viewHeight
    ensures Measure(s, borderWidth, w, h).measuredHeight == Measure(s', borderWidth, w', h).measuredHeight
    ensures Measure(s, borderWidth, w, h).viewHeight == Measure(s', borderWidth, w', h).viewHeight
  {
  }

  /** The reported dimensions are the un-inset ones: stored + 2*borderWidth on each axis. */
  lemma ReportedIsUninset(s: MeasureState, borderWidth: int, w: MeasureSpec, h: MeasureSpec)
    ensures var t := Measure(s, borderWidth, w, h);
      t.measuredWidth == t.viewWidth + 2 * borderWidth && t.measuredHeight == t.viewHeight + 2 * borderWidth
  {
  }

  /** Measuring twice with the same specs is the same as measuring once exactly when nothing drifts. */
  lemma RepeatedPassIdempotentIff(s: MeasureState, borderWidth: int, w: MeasureSpec, h: MeasureSpec)
    ensures var once := Measure(s, borderWidth, w, h);
      Measure(once, borderWidth, w, h) == once
      <==> borderWidth == 0 || (w.mode == Exactly && h.mode == Exactly)
  {
  }

  /** Appending a pass at the end is one more onMeasure on the state the earlier passes left. */
  lemma {:induction false} MeasureAllSnoc(s: MeasureState, borderWidth: int, passes: seq<Pass>, p: Pass)
    ensures MeasureAll(s, borderWidth, passes + [p]) == Measure(MeasureAll(s, borderWidth, passes), borderWidth, p.width, p.height)
    decreases |passes|
  {
    if passes != [] {
      assert (passes + [p])[1..] == passes[1..] + [p];
      MeasureAllSnoc(Measure(s, borderWidth, passes[0].width, passes[0].height), borderWidth, passes[1..], p);
    }
  }

  /** Running one run of passes and then another is the same as running them back to back. */
  lemma {:induction false} MeasureAllAppend(s: MeasureState, borderWidth: int, xs: seq<Pass>, ys: seq<Pass>)
    ensures MeasureAll(s, borderWidth, xs + ys) == MeasureAll(MeasureAll(s, borderWidth, xs), borderWidth, ys)
    decreases |xs|
  {
    if xs != [] {
      assert (xs + ys)[1..] == xs[1..] + ys;
      MeasureAllAppend(Measure(s, borderWidth, xs[0].width, xs[0].height), borderWidth, xs[1..], ys);
    } else {
      assert xs + ys == ys;
    }
  }

  /**
   * The self-referential default: along passes whose spec on an axis is never EXACTLY, the
   * stored size on that axis shrinks by 2*borderWidth per pass (and stays put without a border).
   */
  lemma {:induction false} NonExactPassesDrift(s: MeasureState, borderWidth: int, passes: seq<Pass>, a: Axis)
    requires forall i :: 0 <= i < |passes| ==> SpecOn(passes[i], a).mode != Exactly
    ensures StoredOn(MeasureAll(s, borderWidth, passes), a) == StoredOn(s, a) - 2 * borderWidth * |passes|
    decreases |passes|
  {
    if passes != [] {
      var t := Measure(s, borderWidth, passes[0].width, passes[0].height);
      NonExactSpecFallsBack(s, borderWidth, passes[0], a);
      NonExactPassesDrift(t, borderWidth, passes[1..], a);
      assert 2 * borderWidth * |passes| == 2 * borderWidth + 2 * borderWidth * |passes[1..]|;
    }
  }

  /** A run of passes splits at any pass k: the passes before it, pass k, then the passes after it. */
  lemma SplitAtPass(s: MeasureState, borderWidth: int, passes: seq<Pass>, k: nat)
    requires k < |passes|
    ensures MeasureAll(s, borderWidth, passes)
         == MeasureAll(Measure(MeasureAll(s, borderWidth, passes[..k]), borderWidth, passes[k].width, passes[k].height),
                       borderWidth, passes[k + 1..])
  {
    var prefix, rest := passes[..k + 1], passes[k + 1..];
    assert passes == prefix + rest;
    assert prefix == passes[..k] + [passes[k]];
    MeasureAllSnoc(s, borderWidth, passes[..k], passes[k]);
    MeasureAllAppend(s, borderWidth, prefix, rest);
  }

  /**
   * The last EXACTLY spec on an axis decides it: if pass k is exact on that axis and no later
   * pass is, the stored size is that spec's size minus 2*borderWidth for pass k and for each
   * later pass; with no border it is exactly the size of the last exact spec.
   */
  lemma LastExactPassDecides(s: MeasureState, borderWidth: int, passes: seq<Pass>, a: Axis, k: nat)
    requires k < |passes| && SpecOn(passes[k], a).mode == Exactly
    requires forall i :: k < i < |passes| ==> SpecOn(passes[i], a).mode != Exactly
    ensures StoredOn(MeasureAll(s, borderWidth, passes), a)
         == SpecOn(passes[k], a).size - 2 * borderWidth * (|passes| - k)
    ensures borderWidth == 0 ==> StoredOn(MeasureAll(s, borderWidth, passes), a) == SpecOn(passes[k], a).size
  {
    var rest := passes[k + 1..];
    var before := MeasureAll(s, borderWidth, passes[..k]);
    var after := Measure(before, borderWidth, passes[k].width, passes[k].height);
    ExactSpecSetsSize(before, borderWidth, passes[k], a);
    SplitAtPass(s, borderWidth, passes, k);
    forall i | 0 <= i < |rest|
      ensures SpecOn(rest[i], a).mode != Exactly
    {
      assert rest[i] == passes[k + 1 + i];
    }
    NonExactPassesDrift(after, borderWidth, rest, a);
    var m := |rest|;
    assert |passes| - k == m + 1;
    assert 2 * borderWidth * (m + 1) == 2 * borderWidth + 2 * borderWidth * m by {
    }
  }
}
