/**
 * The drawing decision of CircleView (loadBitmap and onDraw), without rasterisation.
 *
 * A pass is recorded as the ordered sequence of draw commands issued on the canvas. With no
 * bitmap the view leaves the pass to ImageView's own drawing; with one it draws an optional
 * border circle and then the circle filled with the bitmap. Both circles are computed from the
 * stored width and the border width, never from the stored height; the border radius subtracts
 * the float 4.0f, kept here as the integer 4.
 */
module Drawing {
  import opened Wrappers

  /** An ARGB colour: the 32 bits Java keeps in an int, read as unsigned. */
  newtype Color = c: int | 0 <= c < 0x1_0000_0000

  /** The colour every pass that draws an image sets on the fill paint: alpha 0x80, black. */
  const FillTint: Color := 0x8000_0000

  /** A freshly created Paint is opaque black. */
  const DefaultPaintColor: Color := 0xFF00_0000

  /** Distance from the primary circle's centre to its edge is the centre minus this. */
  const PrimaryRadiusInset := 25

  /** Distance from the border circle's centre to its edge is that centre minus this. */
  const BorderRadiusInset := 4

  /** A decoded bitmap, known only by identity and size. */
  datatype Bitmap = Bitmap(id: nat, width: nat, height: nat)

  /** The shader built from the current bitmap, kept as an opaque token. */
  datatype Shader = BitmapShader(source: Bitmap)

  /** The state of a Paint that this view touches: its colour and its shader. */
  datatype Paint = Paint(color: Color, shader: Option<Shader>)

  /** What ImageView.getDrawable() may hand back when it is not null. */
  datatype Drawable = BitmapDrawable(bitmap: Option<Bitmap>) | OtherDrawable

  /** The cast to BitmapDrawable in loadBitmap throws on any other kind of drawable. */
  datatype DrawError = ClassCast

  datatype PaintRef = FillPaint | BorderPaint

  datatype DrawCommand = Circle(cx: int, cy: int, radius: int, paint: PaintRef) | DelegateToSuper

  function NewPaint(): Paint
  {
    Paint(DefaultPaintColor, None)
  }

  /** Java's int division by two, which rounds toward zero (Dafny's rounds down). */
  function HalfTowardZero(n: int): (h: int)
    ensures 0 <= n ==> 0 <= n - 2 * h <= 1
    ensures n < 0 ==> -1 <= n - 2 * h <= 0
  {
    if n >= 0 then n / 2 else -((-n) / 2)
  }

  /** loadBitmap: the bitmap the current drawable holds, or the exception its cast raises. */
  function LoadedImage(current: Option<Drawable>): Result<Option<Bitmap>, DrawError>
  {
    match current
    case None => Success(None)
    case Some(BitmapDrawable(b)) => Success(b)
    case Some(OtherDrawable) => Failure(ClassCast)
  }

  function CircleCenter(viewWidth: int): int
  {
    HalfTowardZero(viewWidth)
  }

  function PrimaryCircle(viewWidth: int): DrawCommand
  {
    var c := CircleCenter(viewWidth);
    Circle(c, c, c - PrimaryRadiusInset, FillPaint)
  }

  function BorderCircle(viewWidth: int, borderWidth: int): DrawCommand
  {
    var c := CircleCenter(viewWidth);
    Circle(c + borderWidth, c + borderWidth, c + borderWidth - BorderRadiusInset, BorderPaint)
  }

  /** The commands one onDraw issues, given whether a bitmap was loaded. */
  function DrawPlan(hasImage: bool, hasABorder: bool, borderWidth: int, viewWidth: int): seq<DrawCommand>
  {
    if !hasImage then [DelegateToSuper]
    else (if hasABorder then [BorderCircle(viewWidth, borderWidth)] else []) + [PrimaryCircle(viewWidth)]
  }

  /** The fill paint after onDraw: retinted and re-shaded from the bitmap when there is one. */
  function FillAfterDraw(fill: Paint, image: Option<Bitmap>): Paint
  {
    match image
    case None => fill
    case Some(b) => fill.(shader := Some(BitmapShader(b)), color := FillTint)
  }

  /** setBorderColor's effect on the border paint, which may not exist. */
  function WithBorderColor(border: Option<Paint>, c: Color): Option<Paint>
  {
    match border
    case None => None
    case Some(p) => Some(p.(color := c))
  }

  predicate UsesPaint(cmd: DrawCommand, p: PaintRef)
  {
    cmd.Circle? && cmd.paint == p
  }

  /** A circle lies inside another (squared distance of centres at most the radius gap squared). */
  predicate Encloses(outer: DrawCommand, inner: DrawCommand)
    requires outer.Circle? && inner.Circle?
  {
    var dx, dy := outer.cx - inner.cx, outer.cy - inner.cy;
    inner.radius <= outer.radius && dx * dx + dy * dy <= (outer.radius - inner.radius) * (outer.radius - inner.radius)
  }

  /** The image is absent exactly when there is no drawable or the drawable holds no bitmap. */
  lemma LoadedImageAbsentIff(current: Option<Drawable>)
    requires LoadedImage(current).Success?
    ensures LoadedImage(current).value.None? <==> current.None? || current.value.bitmap.None?
    ensures current.Some? ==> current.value.BitmapDrawable?
  {
  }

  /** Without an image the pass only delegates to ImageView: no circle is drawn. */
  lemma NoImageOnlyDelegates(hasImage: bool, hasABorder: bool, borderWidth: int, viewWidth: int)
    ensures var plan := DrawPlan(hasImage, hasABorder, borderWidth, viewWidth);
      && (DelegateToSuper in plan <==> !hasImage)
      && (!hasImage ==> plan == [DelegateToSuper])
      && (hasImage <==> exists i :: 0 <= i < |plan| && plan[i].Circle?)
  {
    var plan := DrawPlan(hasImage, hasABorder, borderWidth, viewWidth);
    if hasImage {
      assert plan[|plan| - 1].Circle?;
    }
  }

  /**
   * With an image the last command is the filled circle centred at (w/2, w/2) with radius
   * w/2 - 25, w being the stored width and / Java's division; a border circle comes first
   * exactly when the view has a border, and nothing else is drawn.
   */
  lemma ImagePlanShape(hasABorder: bool, borderWidth: int, viewWidth: int)
    ensures var plan := DrawPlan(true, hasABorder, borderWidth, viewWidth);
      var c := CircleCenter(viewWidth);
      && |plan| == (if hasABorder then 2 else 1)
      && plan[|plan| - 1] == Circle(c, c, c - 25, FillPaint)
      && (hasABorder ==> plan[0] == Circle(c + borderWidth, c + borderWidth, c + borderWidth - 4, BorderPaint))
      && (0 <= viewWidth ==> c == viewWidth / 2)
  {
  }

  /** The border paint is used by some command exactly when an image is drawn and the view has a border. */
  lemma BorderCircleIff(hasImage: bool, hasABorder: bool, borderWidth: int, viewWidth: int)
    ensures var plan := DrawPlan(hasImage, hasABorder, borderWidth, viewWidth);
      (exists i :: 0 <= i < |plan| && UsesPaint(plan[i], BorderPaint)) <==> hasImage && hasABorder
  {
    var plan := DrawPlan(hasImage, hasABorder, borderWidth, viewWidth);
    if hasImage && hasABorder {
      assert UsesPaint(plan[0], BorderPaint);
    }
  }

  /**
   * For a stored width of at least 50 the filled circle lies inside the square of side
   * viewWidth at the canvas origin, with a margin of 25 on the left and top, and of 25 or 26
   * on the right and bottom (odd widths). That square is not the whole canvas: the canvas is
   * measuredWidth by measuredHeight, which is larger when the border width is positive, and a
   * layout shorter than it is wide cuts the circle at the bottom.
   */
  lemma PrimaryCircleInsideView(viewWidth: int)
    requires 50 <= viewWidth
    ensures var p := PrimaryCircle(viewWidth);
      && p.radius >= 0
      && p.cx - p.radius == 25 && p.cy - p.radius == 25
      && viewWidth - 26 <= p.cx + p.radius <= viewWidth - 25
  {
  }

  /** The border circle is shifted by the border width on both axes: concentric only without one. */
  lemma BorderConcentricIff(viewWidth: int, borderWidth: int)
    ensures var b, p := BorderCircle(viewWidth, borderWidth), PrimaryCircle(viewWidth);
      (b.cx, b.cy) == (p.cx, p.cy) <==> borderWidth == 0
  {
  }

  /**
   * For a stored width of at least 50 (below it the filled circle's radius is
   * negative) and a non-negative border width, the border circle surrounds the filled
   * circle exactly when the border width is at most 50: the centres are borderWidth*sqrt(2)
   * apart and the radii differ by borderWidth + 21.
   */
  lemma BorderEnclosesPrimaryIff(viewWidth: int, borderWidth: int)
    requires 50 <= viewWidth && 0 <= borderWidth
    ensures Encloses(BorderCircle(viewWidth, borderWidth), PrimaryCircle(viewWidth)) <==> borderWidth <= 50
  {
    var outer, inner := BorderCircle(viewWidth, borderWidth), PrimaryCircle(viewWidth);
    assert outer.cx - inner.cx == borderWidth && outer.cy - inner.cy == borderWidth;
    assert outer.radius - inner.radius == borderWidth + 21;
    SquaredGapIff(borderWidth);
  }

  /** The arithmetic behind BorderEnclosesPrimaryIff: 2b^2 <= (b + 21)^2 for b >= 0 exactly when b <= 50. */
  lemma SquaredGapIff(b: int)
    requires 0 <= b
    ensures b * b + b * b <= (b + 21) * (b + 21) <==> b <= 50
  {
    assert (b + 21) * (b + 21) == b * b + 42 * b + 441;
    if b <= 50 {
      if b >= 42 {
        assert b * (b - 42) <= 50 * (b - 42);
      }
    } else {
      assert b * (b - 42) >= 51 * (b - 42) >= 51 * 9;
    }
  }

  /** Setting the same border colour twice leaves the paint as setting it once; existence never changes. */
  lemma BorderColorIdempotent(border: Option<Paint>, c: Color)
    ensures WithBorderColor(WithBorderColor(border, c), c) == WithBorderColor(border, c)
    ensures WithBorderColor(border, c).Some? <==> border.Some?
    ensures border.Some? ==> WithBorderColor(border, c).value.color == c
  {
  }
}
