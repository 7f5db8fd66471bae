# CircleView, modelled in Dafny

`CircleView` is an Android `ImageView` that paints its bitmap as a circle, optionally on top of
a border circle. Under the framework calls it holds three pieces of integer logic, modelled here:

- **Measurement** (`onMeasure`, `measureWidth`, `measureHeight`): each axis takes the size of an
  EXACTLY measure spec. Otherwise it falls back to the inset size the view stored on the previous
  pass. The stored size then becomes the measured size minus twice `borderWidth`. The un-inset
  size is what `setMeasuredDimension` reports.
- **Drawing** (`loadBitmap`, `onDraw`): without a bitmap, the pass is left to `ImageView`. With one,
  the fill paint gets the bitmap's shader and the tint `0x80000000`. Then an optional border circle
  and the filled circle are drawn. Both circles are computed from `viewWidth` and `borderWidth`,
  never from `viewHeight`. The border radius subtracts the float `4.0f`.
- **Border colour** (`setBorderColor`): recolours the border paint when it exists and always
  requests one redraw.

Files:

- `wrappers.dfy`: `Option` and `Result`.
- `measurement.dfy` (module `Measurement`): decoded measure specs, one pass as the function
  `Measure`, and a run of passes as `MeasureAll`. Lemmas cover the fallback rule, the drift of the
  stored size under non-exact passes, and the fact that the last exact pass decides the size.
- `drawing.dfy` (module `Drawing`): colours, paints, drawables and draw commands. It holds Java's
  rounding-toward-zero halving, the draw plan of one pass, and lemmas about the plan and the
  geometry of the two circles.
- `circle_view.dfy` (module `CircleViews`): the class `CircleView`, whose fields are the Java
  fields. Its methods update them in place, and each method's `ensures` ties the new state to the
  functions above.

Framework effects are recorded instead of performed:

- `setMeasuredDimension` stores `measuredWidth` and `measuredHeight`.
- `invalidate()` increments a counter.
- A draw pass returns the commands it issues on the canvas, as `Circle(cx, cy, radius, paint)` or
  `DelegateToSuper`.
- The current drawable, which the source reads with `getDrawable()`, is a parameter of `OnDraw`.

Behaviour of the code worth knowing:

- The border circle is not concentric with the image circle. It is shifted by `borderWidth` on
  both axes, so it is concentric only when `borderWidth` is 0 (`Drawing.BorderConcentricIff`).
- The fill tint `0x80000000` has alpha `0x80` (half-transparent black).
- A zero or negative stored width is not skipped. The circles are still issued, with whatever
  (possibly negative) radius the arithmetic gives.
- `measureHeight` receives the width spec but ignores it.
- Every constructor calls `setup()` when `hasABorder` is still `false`, `borderWidth` is 0 and
  `borderColor` is `0xDDD1D1D1`, and no code changes them. So every view the program builds has
  no border paint (`CircleViews.SourceConfig`). The model takes these three values as a
  constructor argument, so that the bordered case can be stated too.

## Model

| member | source | states |
|---|---|---|
| `Measurement.MeasureWidth` | app/src/main/java/ludovic/vimont/customviews/CircleView.java:105-112 | Definition of measureWidth, with no contract of its own: the EXACTLY size, or else the stored viewWidth. Its promises are stated by `Measurement.MeasureAxis`, `Measurement.ExactSpecSetsSize` and `Measurement.NonExactSpecFallsBack`. |
| `Measurement.MeasureHeight` | app/src/main/java/ludovic/vimont/customviews/CircleView.java:114-121 | Definition of measureHeight, with no contract of its own. It takes the width spec and never reads it. Its promises are stated by `Measurement.HeightIgnoresWidthSpec` and `Measurement.MeasureAxis`. |
| `Measurement.Measure` | app/src/main/java/ludovic/vimont/customviews/CircleView.java:95-103 | Definition of one onMeasure pass, with no contract of its own. `CircleViews.CircleView.OnMeasure` is proved equal to it. Its promises are stated by `Measurement.MeasureAxis`, `Measurement.ReportedIsUninset` and `Measurement.RepeatedPassIdempotentIff`. |
| `Measurement.MeasureAll` | app/src/main/java/ludovic/vimont/customviews/CircleView.java:95-103 | Definition of a run of onMeasure calls, first pass first, with no contract of its own. Its promises are stated by `Measurement.MeasureAllSnoc`, `Measurement.MeasureAllAppend`, `Measurement.SplitAtPass`, `Measurement.NonExactPassesDrift` and `Measurement.LastExactPassDecides`. |
| `Measurement.MeasureAxis` | app/src/main/java/ludovic/vimont/customviews/CircleView.java:95-120 | On each axis, the reported size is the spec's size for EXACTLY and otherwise the previously stored size. The new stored size is the reported size minus 2*borderWidth. |
| `Measurement.ExactSpecSetsSize` | app/src/main/java/ludovic/vimont/customviews/CircleView.java:96-100 | An EXACTLY spec of size n reports n and stores n - 2*borderWidth, on width and on height alike. |
| `Measurement.NonExactSpecFallsBack` | app/src/main/java/ludovic/vimont/customviews/CircleView.java:99-100 | Any other spec reports the old stored size and stores it minus 2*borderWidth. With borderWidth 0 the stored size is unchanged. |
| `Measurement.HeightIgnoresWidthSpec` | app/src/main/java/ludovic/vimont/customviews/CircleView.java:97 | The measured and stored heights depend only on the height spec and the old stored height. Any width spec and any width state give the same height. |
| `Measurement.ReportedIsUninset` | app/src/main/java/ludovic/vimont/customviews/CircleView.java:99-102 | The size passed to setMeasuredDimension is the un-inset one: stored size + 2*borderWidth on each axis. |
| `Measurement.RepeatedPassIdempotentIff` | app/src/main/java/ludovic/vimont/customviews/CircleView.java:95-103 | Repeating a pass with the same specs changes nothing if and only if borderWidth is 0 or both specs are EXACTLY. |
| `Measurement.MeasureAllSnoc` | app/src/main/java/ludovic/vimont/customviews/CircleView.java:95-103 | A run of passes followed by one more pass is that pass applied to the state the run left. |
| `Measurement.MeasureAllAppend` | app/src/main/java/ludovic/vimont/customviews/CircleView.java:95-103 | Two runs of passes back to back equal the second run started from the state the first run left. |
| `Measurement.SplitAtPass` | app/src/main/java/ludovic/vimont/customviews/CircleView.java:95-103 | A run of passes is the same as: the passes before pass k, then pass k, then the passes after it. |
| `Measurement.NonExactPassesDrift` | app/src/main/java/ludovic/vimont/customviews/CircleView.java:99-100 | Over n passes that are never EXACTLY on an axis, the stored size on that axis drops by exactly 2*borderWidth*n. |
| `Measurement.LastExactPassDecides` | app/src/main/java/ludovic/vimont/customviews/CircleView.java:99-120 | If pass k is the last EXACTLY spec on an axis, the stored size is its size minus 2*borderWidth*(passes from k on). With borderWidth 0 it is exactly that size. |
| `Drawing.LoadedImage` | app/src/main/java/ludovic/vimont/customviews/CircleView.java:59-62 | Definition of loadBitmap's result, with no contract of its own: the drawable's bitmap, absent for no drawable, or the cast's failure. Its promises are stated by `Drawing.LoadedImageAbsentIff`. |
| `Drawing.DrawPlan` | app/src/main/java/ludovic/vimont/customviews/CircleView.java:69-81 | Definition of the commands one onDraw issues, with no contract of its own. Its promises are stated by `Drawing.NoImageOnlyDelegates`, `Drawing.ImagePlanShape` and `Drawing.BorderCircleIff`. |
| `Drawing.FillAfterDraw` | app/src/main/java/ludovic/vimont/customviews/CircleView.java:73-74 | Definition of the fill paint after onDraw, with no contract of its own: with an image, the bitmap's shader and the tint 0x80000000; otherwise unchanged. `CircleViews.CircleView.OnDraw` is proved to leave the paint so, and its object invariant keeps it. |
| `Drawing.WithBorderColor` | app/src/main/java/ludovic/vimont/customviews/CircleView.java:53-55 | Definition of setBorderColor's effect on the border paint, with no contract of its own: recoloured if it exists, still absent otherwise. Its promises are stated by `Drawing.BorderColorIdempotent`. |
| `Drawing.HalfTowardZero` | app/src/main/java/ludovic/vimont/customviews/CircleView.java:70 | Java's int `/ 2` rounds toward zero. The remainder n - 2h is 0 or 1 for n >= 0, and 0 or -1 for n < 0. |
| `Drawing.LoadedImageAbsentIff` | app/src/main/java/ludovic/vimont/customviews/CircleView.java:59-62 | When the cast succeeds, the loaded image is absent exactly when there is no drawable or the drawable holds no bitmap. The cast succeeds only on a BitmapDrawable or on null. |
| `Drawing.NoImageOnlyDelegates` | app/src/main/java/ludovic/vimont/customviews/CircleView.java:69-81 | The pass delegates to ImageView exactly when there is no image. It then issues nothing else. It draws a circle exactly when there is an image. |
| `Drawing.ImagePlanShape` | app/src/main/java/ludovic/vimont/customviews/CircleView.java:70-78 | With an image, the last command is the fill-paint circle at (c, c) with radius c - 25, where c = viewWidth/2 (Java division). Before it comes exactly one border-paint circle at (c + borderWidth, c + borderWidth) with radius c + borderWidth - 4 when bordered, and nothing otherwise. |
| `Drawing.BorderCircleIff` | app/src/main/java/ludovic/vimont/customviews/CircleView.java:75-77 | Some command uses the border paint if and only if an image is drawn and hasABorder holds. |
| `Drawing.PrimaryCircleInsideView` | app/src/main/java/ludovic/vimont/customviews/CircleView.java:70-71 | For viewWidth >= 50 the filled circle lies in the square of side viewWidth at the canvas origin. It is 25 from that square's left and top edges, and 25 or 26 from its right and bottom edges. The canvas itself is measuredWidth by measuredHeight, which differs when borderWidth > 0 or the layout is not square. |
| `Drawing.BorderConcentricIff` | app/src/main/java/ludovic/vimont/customviews/CircleView.java:76-78 | The border circle shares the filled circle's centre if and only if borderWidth is 0. |
| `Drawing.BorderEnclosesPrimaryIff` | app/src/main/java/ludovic/vimont/customviews/CircleView.java:70-78 | For viewWidth >= 50 (below that the filled circle's radius is negative) and borderWidth >= 0, the border circle contains the filled circle if and only if borderWidth <= 50. |
| `Drawing.BorderColorIdempotent` | app/src/main/java/ludovic/vimont/customviews/CircleView.java:52-57 | Setting the same border colour twice gives the paint that setting it once gives. The border paint exists afterwards exactly when it existed before, and then has colour c. |
| `CircleViews.CircleView.constructor` | app/src/main/java/ludovic/vimont/customviews/CircleView.java:39-50 | setup: a fresh fill paint and an unmeasured view with no image. A border paint coloured borderColor exists exactly when hasABorder, and setting its colour requests one redraw. |
| `CircleViews.CircleView.SetBorderColor` | app/src/main/java/ludovic/vimont/customviews/CircleView.java:52-57 | Recolours the border paint only if it exists and requests exactly one redraw. Measurement, image and fill paint are untouched. |
| `CircleViews.CircleView.LoadBitmap` | app/src/main/java/ludovic/vimont/customviews/CircleView.java:59-62 | The image becomes the drawable's bitmap, or absent when there is no drawable. A non-bitmap drawable fails the cast and leaves the image as it was. |
| `CircleViews.CircleView.OnDraw` | app/src/main/java/ludovic/vimont/customviews/CircleView.java:65-82 | Returns the draw plan for the loaded image and the stored width, never the height. With an image, the fill paint gets the bitmap's shader and tint 0x80000000. Without one, the fill paint is unchanged. Every command that uses the border paint has a border paint to use, so line 76 never meets a null paint. The object invariant is kept, and a failed cast changes nothing. |
| `CircleViews.CircleView.OnMeasure` | app/src/main/java/ludovic/vimont/customviews/CircleView.java:94-121 | The new measured and stored sizes are one `Measure` pass from the old ones. Each reported size is the exact size or the old stored size, and each stored size is the reported size minus 2*borderWidth. |
| `CircleViews.SetBorderColorTwice` | app/src/main/java/ludovic/vimont/customviews/CircleView.java:52-57 | Two identical setBorderColor calls leave the paint as one call does and request two redraws. Layout, image and fill paint are untouched. |
| `CircleViews.DrawAfterExactLayout` | app/src/main/java/ludovic/vimont/customviews/CircleView.java:65-103 | A view built with the program's defaults, measured EXACTLY at side and then drawn with a bitmap, issues exactly one circle: (side/2, side/2) with radius side/2 - 25 in the fill paint. |

## Left out

- `computeBitmapShader` (CircleView.java:84-92): a float `Matrix.setRectToRect(..., CENTER)` over
  the bitmap's and the view's bounds. The shader is an opaque token `BitmapShader(bitmap)` on the
  fill paint, and its matrix is not modelled.
- Rasterisation: `Canvas.drawCircle`, anti-aliasing, `setShadowLayer` and `setLayerType` are
  framework effects. Draw commands are recorded instead. The paints model only colour and shader.
- `super.onDraw(canvas)` is ImageView's own drawing. It appears only as the `DelegateToSuper` command.
- The three constructors' `Context`/`AttributeSet` plumbing only forwards to `setup`. It is one
  constructor taking the border settings.
- `MeasureSpec` bit packing: specs arrive decoded as a mode and a size.
- CircleViews.CircleView.OnMeasure: does not model Java's 32-bit wrap-around of
  `width - borderWidth * 2`, nor of `circleCenter + borderWidth` in onDraw, because sizes are
  unbounded integers. In the program borderWidth is always 0, so neither can wrap there. A view
  set up with a large border width could wrap, and the model does not capture that.
- Drawing.DrawPlan: `Canvas.drawCircle` takes float centre and radius, and every circle argument
  the source passes (CircleView.java:76 and :78) is an int converted to float. The model keeps them
  as integers, which is exact while they stay below 2^24 in magnitude.
- What `invalidate()` triggers in the framework is not modelled. Only the number of requests is kept.
