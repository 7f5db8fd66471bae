/**
 * CircleView: an ImageView that draws its bitmap as a circle, optionally over a border circle.
 *
 * The view keeps its inset size from the last measure pass, the bitmap it loaded on the last
 * draw pass, a fill paint and, only when it was set up with a border, a border paint. The
 * host framework's own effects are recorded rather than performed: setMeasuredDimension
 * stores the reported size, invalidate() is counted, and a draw pass returns the commands it
 * issues on the canvas.
 */
module CircleViews {
  import opened Wrappers
  import opened Measurement
  import opened Drawing

  /** The border settings a view is set up with. */
  datatype Config = Config(hasABorder: bool, borderWidth: nat, borderColor: Color)

  /** The field initialisers every CircleView in the program is built with. */
  const SourceConfig := Config(false, 0, 0xDDD1_D1D1)

  class CircleView {
    var viewWidth: int
    var viewHeight: int
    // what setMeasuredDimension last recorded
    var measuredWidth: int
    var measuredHeight: int

    const hasABorder: bool
    const borderWidth: nat
    const borderColor: Color

    var image: Option<Bitmap>
    var paint: Paint
    // null unless the view was set up with a border
    var paintBorder: Option<Paint>
    // how many times invalidate() was requested
    var invalidations: nat

    /**
     * The border paint exists exactly when the view has a border, and whenever a bitmap is
     * loaded the fill paint carries that bitmap's shader and the fill tint.
     */
    ghost predicate Valid()
      reads this
    {
      && (paintBorder.Some? <==> hasABorder)
      && (image.Some? ==> paint.shader == Some(BitmapShader(image.value)) && paint.color == FillTint)
    }

    function Layout(): MeasureState
      reads this
    {
      MeasureState(viewWidth, viewHeight, measuredWidth, measuredHeight)
    }

    /** The constructors with their setup(): a fill paint, and a coloured border paint if bordered. */
    constructor (config: Config)
      ensures Valid()
      ensures hasABorder == config.hasABorder && borderWidth == config.borderWidth && borderColor == config.borderColor
      ensures Layout() == Unmeasured && image == None && paint == NewPaint()
      ensures paintBorder == (if config.hasABorder then Some(NewPaint().(color := config.borderColor)) else None)
      ensures invalidations == (if config.hasABorder then 1 else 0)
    {
      viewWidth, viewHeight, measuredWidth, measuredHeight := 0, 0, 0, 0;
      hasABorder, borderWidth, borderColor := config.hasABorder, config.borderWidth, config.borderColor;
      image := None;
      paintBorder := None;
      invalidations := 0;
      paint := NewPaint();
      new;
      if hasABorder {
        paintBorder := Some(NewPaint());
        SetBorderColor(borderColor);
      }
    }

    method Invalidate()
      modifies this`invalidations
      ensures invalidations == old(invalidations) + 1
    {
      invalidations := invalidations + 1;
    }

    /** Recolours the border paint if there is one, and always requests one redraw. */
    method SetBorderColor(c: Color)
      requires Valid()
      modifies this`paintBorder, this`invalidations
      ensures Valid()
      ensures paintBorder == WithBorderColor(old(paintBorder), c)
      ensures old(paintBorder).Some? ==> paintBorder.value.color == c
      ensures invalidations == old(invalidations) + 1
      ensures Layout() == old(Layout()) && image == old(image) && paint == old(paint)
    {
      if paintBorder.Some? {
        paintBorder := Some(paintBorder.value.(color := c));
      }
      Invalidate();
    }

    /**
     * Reads the bitmap out of the current drawable; the cast fails on a non-bitmap drawable.
     * It updates only the image, so it may leave Valid() broken: it is called only from
     * OnDraw, which sets the fill paint to match before returning.
     */
    method LoadBitmap(current: Option<Drawable>) returns (outcome: Result<(), DrawError>)
      modifies this`image
      ensures outcome.Success? <==> LoadedImage(current).Success?
      ensures outcome.Success? ==> image == LoadedImage(current).value
      ensures outcome.Failure? ==> outcome.error == ClassCast && image == old(image)
    {
      match current {
        case None =>
          image := None;
        case Some(BitmapDrawable(b)) =>
          image := b;
        case Some(OtherDrawable) =>
          return Failure(ClassCast);
      }
      outcome := Success(());
    }

    /**
     * One draw pass: load the bitmap, then either hand the pass to ImageView or set the fill
     * paint's shader and tint and draw the border circle (if any) and the filled circle.
     */
    method OnDraw(current: Option<Drawable>) returns (r: Result<seq<DrawCommand>, DrawError>)
      requires Valid()
      modifies this`image, this`paint
      ensures Valid()
      ensures LoadedImage(current).Failure? ==> r == Failure(ClassCast) && image == old(image) && paint == old(paint)
      ensures LoadedImage(current).Success? ==>
        && image == LoadedImage(current).value
        && paint == FillAfterDraw(old(paint), image)
        && r == Success(DrawPlan(image.Some?, hasABorder, borderWidth, viewWidth))
      ensures r.Success? ==> forall i :: 0 <= i < |r.value| && UsesPaint(r.value[i], BorderPaint) ==> paintBorder.Some?
      ensures Layout() == old(Layout()) && paintBorder == old(paintBorder) && invalidations == old(invalidations)
    {
      var loaded := LoadBitmap(current);
      if loaded.Failure? {
        return Failure(loaded.error);
      }
      var commands: seq<DrawCommand> := [];
      if image.Some? {
        var circleCenter := HalfTowardZero(viewWidth);
        var radius := circleCenter - PrimaryRadiusInset;
        paint := paint.(shader := Some(BitmapShader(image.value)));
        paint := paint.(color := FillTint);
        if hasABorder {
          var edge := circleCenter + borderWidth;
          commands := commands + [Circle(edge, edge, edge - BorderRadiusInset, BorderPaint)];
          assert commands == [BorderCircle(viewWidth, borderWidth)];
        }
        commands := commands + [Circle(circleCenter, circleCenter, radius, FillPaint)];
        assert commands[|commands| - 1] == PrimaryCircle(viewWidth);
        assert commands == DrawPlan(true, hasABorder, borderWidth, viewWidth);
      } else {
        commands := [DelegateToSuper];
      }
      r := Success(commands);
      BorderCircleIff(image.Some?, hasABorder, borderWidth, viewWidth);
    }

    /**
     * One measure pass: each axis takes an exact spec's size or falls back to the stored
     * size; the stored sizes become the reported ones minus twice the border width.
     */
    method OnMeasure(widthSpec: MeasureSpec, heightSpec: MeasureSpec)
      requires Valid()
      modifies this`viewWidth, this`viewHeight, this`measuredWidth, this`measuredHeight
      ensures Valid()
      ensures Layout() == Measure(old(Layout()), borderWidth, widthSpec, heightSpec)
      ensures measuredWidth == (if widthSpec.mode == Exactly then widthSpec.size else old(viewWidth))
      ensures measuredHeight == (if heightSpec.mode == Exactly then heightSpec.size else old(viewHeight))
      ensures viewWidth == measuredWidth - 2 * borderWidth && viewHeight == measuredHeight - 2 * borderWidth
    {
      var width := MeasureWidth(widthSpec, viewWidth);
      var height := MeasureHeight(heightSpec, widthSpec, viewHeight);
      viewWidth := width - borderWidth * 2;
      viewHeight := height - borderWidth * 2;
      measuredWidth, measuredHeight := width, height;
    }
  }

  /** Two identical setBorderColor calls: the paint ends as after one, with two redraw requests. */
  method SetBorderColorTwice(v: CircleView, c: Color)
    requires v.Valid()
    modifies v`paintBorder, v`invalidations
    ensures v.Valid()
    ensures v.paintBorder == WithBorderColor(old(v.paintBorder), c)
    ensures v.invalidations == old(v.invalidations) + 2
    ensures v.Layout() == old(v.Layout()) && v.image == old(v.image) && v.paint == old(v.paint)
  {
    v.SetBorderColor(c);
    v.SetBorderColor(c);
    BorderColorIdempotent(old(v.paintBorder), c);
  }

  lemma UnborderedPlan(side: nat)
    ensures DrawPlan(true, false, 0, side) == [Circle(side / 2, side / 2, side / 2 - 25, FillPaint)]
  {
    assert DrawPlan(true, false, 0, side) == [PrimaryCircle(side)];
  }

  /**
   * A view built as the program builds it, laid out exactly at side, then drawn with a
   * bitmap: no border, and a single filled circle at (side/2, side/2) of radius side/2 - 25.
   */
  method DrawAfterExactLayout(side: nat, b: Bitmap) returns (r: Result<seq<DrawCommand>, DrawError>)
    ensures r == Success([Circle(side / 2, side / 2, side / 2 - 25, FillPaint)])
  {
    var v := new CircleView(SourceConfig);
    v.OnMeasure(MeasureSpec(Exactly, side), MeasureSpec(Exactly, side));
    assert v.viewWidth == side && !v.hasABorder && v.borderWidth == 0;
    r := v.OnDraw(Some(BitmapDrawable(Some(b))));
    UnborderedPlan(side);
  }
}
