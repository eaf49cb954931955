/**
 * The coordinate-transform cache: a transform keeps the parameters its matrix
 * is built from, the last matrix built, and a dirty flag. Setters only mark
 * the matrix stale; it is rebuilt on the next request. The matrix itself is
 * kept symbolic: it is the recompute rule applied to a snapshot of the
 * parameters.
 */
module Transform {
  import opened Wrappers
  import opened Geometry

  /** The two recompute rules: view rectangle to display (OpenGLTransform)
      and widget pixel to image pixel (WidgetToFitsOpenGLTransform). */
  datatype Kind = ViewToDisplay | WidgetToFits

  /** Every field the recompute rules read. A widget size of None is the
      default-constructed, invalid size of a transform never given one. */
  datatype Params = Params(
    imageSize: Size,
    scaleX: real,
    scaleY: real,
    angle: real,
    hFlip: bool,
    vFlip: bool,
    viewrect: Rect,
    widgetSize: Option<Size>)

  /** A 4x4 matrix, symbolically: the identity, or what a recompute rule
      builds from a snapshot of the parameters. */
  datatype Matrix = Identity | Built(kind: Kind, snapshot: Params)

  /** The rotation, flips and aspect scales shared by both rules, applied to
      the square (-1, -1)-(1, 1); kept symbolic like the matrix. */
  datatype BorderRect = BorderOf(angle: real, hFlip: bool, vFlip: bool, scaleX: real, scaleY: real)

  datatype Transform = Transform(kind: Kind, params: Params, expired: bool, matrix: Matrix)

  /** `updateTransform` of the given kind: a matrix built from a snapshot
      of every parameter, symbolically distinct from the placeholder a new
      transform holds (numerically it may still be the identity). */
  function Recompute(kind: Kind, p: Params): (m: Matrix)
    ensures m != Identity
    ensures m.kind == kind && m.snapshot == p
  {
    Built(kind, p)
  }

  /** The scale invariant: both aspect scales are those `setImageSize`
      derives from the current image size. */
  predicate ScalesFit(p: Params)
  {
    && p.scaleX == AspectScale(p.imageSize.width, p.imageSize.height)
    && p.scaleY == AspectScale(p.imageSize.height, p.imageSize.width)
  }

  /** The cache invariant: a matrix not marked stale is the recompute of the
      current parameters. */
  predicate Consistent(t: Transform)
  {
    !t.expired ==> t.matrix == Recompute(t.kind, t.params)
  }

  /** The parameters of a default-constructed transform. */
  const InitialParams := Params(Size(1, 1), 1.0, 1.0, 0.0, false, false, Rect(-1.0, -1.0, 2.0, 2.0), None)

  /** The default constructor: stale identity matrix, a 1x1 image at unit
      scale, no rotation, no flips, the view rectangle (-1, -1, 2, 2). */
  function NewTransform(kind: Kind): (t: Transform)
    ensures t.kind == kind && t.expired && t.matrix == Identity
    ensures t.params.imageSize == Size(1, 1)
    ensures t.params.scaleX == 1.0 && t.params.scaleY == 1.0
    ensures t.params.angle == 0.0 && !t.params.hFlip && !t.params.vFlip
    ensures t.params.viewrect == Rect(-1.0, -1.0, 2.0, 2.0)
    ensures t.params.widgetSize.None?
    ensures Consistent(t) && ScalesFit(t.params)
  {
    Transform(kind, InitialParams, true, Identity)
  }

  /** The constructor taking an image size and a view rectangle. */
  function NewTransformFor(imageSize: Size, viewrect: Rect): (t: Transform)
    ensures t.kind == ViewToDisplay && t.expired && Consistent(t) && t.matrix == Identity
    ensures t.params.imageSize == imageSize && t.params.viewrect == viewrect
    ensures t.params.scaleX == AspectScale(imageSize.width, imageSize.height)
    ensures t.params.scaleY == AspectScale(imageSize.height, imageSize.width)
    ensures t.params.angle == 0.0 && !t.params.hFlip && !t.params.vFlip && t.params.widgetSize.None?
  {
    SetViewrect(SetImageSize(NewTransform(ViewToDisplay), imageSize), viewrect)
  }

  /** The widget-to-image constructor: the above plus the widget size. */
  function NewWidgetToFitsFor(imageSize: Size, widgetSize: Size, viewrect: Rect): (t: Transform)
    ensures t.kind == WidgetToFits && t.expired && Consistent(t) && t.matrix == Identity
    ensures t.params.imageSize == imageSize && t.params.viewrect == viewrect
    ensures t.params.widgetSize == Some(widgetSize)
    ensures t.params.scaleX == AspectScale(imageSize.width, imageSize.height)
    ensures t.params.scaleY == AspectScale(imageSize.height, imageSize.width)
    ensures t.params.angle == 0.0 && !t.params.hFlip && !t.params.vFlip
  {
    var t0 := NewTransform(WidgetToFits);
    SetWidgetSize(SetViewrect(SetImageSize(t0, imageSize), viewrect), widgetSize)
  }

  /** min(1, num/den) in single precision: a zero denominator gives an
      infinity or NaN there, and the minimum with 1 then yields 1. */
  function AspectScale(num: nat, den: nat): (r: real)
    ensures r <= 1.0
    ensures den == 0 ==> r == 1.0
    ensures den > 0 ==> r <= num as real / den as real
    ensures den > 0 ==> r == 1.0 || r == num as real / den as real
  {
    if den == 0 then 1.0
    else if num as real / den as real < 1.0 then num as real / den as real
    else 1.0
  }

  /** `setImageSize`: a different size also resets both aspect scales. */
  function SetImageSize(t: Transform, s: Size): (r: Transform)
    ensures s == t.params.imageSize ==> r == t
    ensures s != t.params.imageSize ==>
      && r.params == t.params.(imageSize := s,
                               scaleX := AspectScale(s.width, s.height),
                               scaleY := AspectScale(s.height, s.width))
      && r.expired
    ensures r.kind == t.kind && r.matrix == t.matrix
  {
    if s == t.params.imageSize then t
    else
      var p := t.params.(imageSize := s,
                         scaleX := AspectScale(s.width, s.height),
                         scaleY := AspectScale(s.height, s.width));
      t.(params := p, expired := true)
  }

  /** `setRotation`. */
  function SetRotation(t: Transform, angle: real): (r: Transform)
    ensures angle == t.params.angle ==> r == t
    ensures angle != t.params.angle ==> r.params == t.params.(angle := angle) && r.expired
    ensures r.kind == t.kind && r.matrix == t.matrix
  {
    if angle == t.params.angle then t
    else t.(params := t.params.(angle := angle), expired := true)
  }

  /** `setViewrect`. */
  function SetViewrect(t: Transform, viewrect: Rect): (r: Transform)
    ensures viewrect == t.params.viewrect ==> r == t
    ensures viewrect != t.params.viewrect ==> r.params == t.params.(viewrect := viewrect) && r.expired
    ensures r.kind == t.kind && r.matrix == t.matrix
  {
    if viewrect == t.params.viewrect then t
    else t.(params := t.params.(viewrect := viewrect), expired := true)
  }

  /** `setHorizontalFlip`. */
  function SetHorizontalFlip(t: Transform, flip: bool): (r: Transform)
    ensures flip == t.params.hFlip ==> r == t
    ensures flip != t.params.hFlip ==> r.params == t.params.(hFlip := flip) && r.expired
    ensures r.kind == t.kind && r.matrix == t.matrix
  {
    if flip == t.params.hFlip then t
    else t.(params := t.params.(hFlip := flip), expired := true)
  }

  /** `setVerticalFlip`. */
  function SetVerticalFlip(t: Transform, flip: bool): (r: Transform)
    ensures flip == t.params.vFlip ==> r == t
    ensures flip != t.params.vFlip ==> r.params == t.params.(vFlip := flip) && r.expired
    ensures r.kind == t.kind && r.matrix == t.matrix
  {
    if flip == t.params.vFlip then t
    else t.(params := t.params.(vFlip := flip), expired := true)
  }

  /** `setWidgetSize`, which only the widget-to-image transform has. */
  function SetWidgetSize(t: Transform, s: Size): (r: Transform)
    requires t.kind == WidgetToFits
    ensures Some(s) == t.params.widgetSize ==> r == t
    ensures Some(s) != t.params.widgetSize ==> r.params == t.params.(widgetSize := Some(s)) && r.expired
    ensures r.kind == t.kind && r.matrix == t.matrix
  {
    if Some(s) == t.params.widgetSize then t
    else t.(params := t.params.(widgetSize := Some(s)), expired := true)
  }

  /** `transformMatrix`: rebuilds the matrix only when it is stale, and
      returns the updated transform with the matrix. */
  function TransformMatrix(t: Transform): (r: (Transform, Matrix))
    ensures r.0.kind == t.kind && r.0.params == t.params
    ensures !r.0.expired && r.0.matrix == r.1
    ensures Consistent(t) ==> r.1 == Recompute(t.kind, t.params)
    ensures !t.expired ==> r.0 == t
  {
    if t.expired then
      var m := Recompute(t.kind, t.params);
      (t.(expired := false, matrix := m), m)
    else (t, t.matrix)
  }

  /** `border`: built on a fresh local matrix from the rotation, flips and
      scales alone. */
  function Border(t: Transform): (b: BorderRect)
    ensures b.angle == t.params.angle && b.hFlip == t.params.hFlip && b.vFlip == t.params.vFlip
    ensures b.scaleX == t.params.scaleX && b.scaleY == t.params.scaleY
  {
    BorderOf(t.params.angle, t.params.hFlip, t.params.vFlip, t.params.scaleX, t.params.scaleY)
  }

  /** The border does not depend on the cache, the view rectangle, the
      widget size or the kind, and requesting the matrix leaves it as is. */
  lemma BorderIgnoresCache(t: Transform, u: Transform)
    requires t.params.angle == u.params.angle
    requires t.params.hFlip == u.params.hFlip && t.params.vFlip == u.params.vFlip
    requires t.params.scaleX == u.params.scaleX && t.params.scaleY == u.params.scaleY
    ensures Border(t) == Border(u)
    ensures Border(TransformMatrix(t).0) == Border(t)
  {
  }

  /** Requesting the matrix twice is requesting it once. */
  lemma TransformMatrixIdempotent(t: Transform)
    ensures TransformMatrix(TransformMatrix(t).0) == TransformMatrix(t)
  {
  }

  /** For a non-degenerate image, both scales lie in (0, 1], the larger side
      gets scale 1, and the scales keep the image's aspect ratio. */
  lemma ImageScalesFit(t: Transform, s: Size)
    requires s.width > 0 && s.height > 0
    requires ScalesFit(t.params) || s != t.params.imageSize
    ensures var p := SetImageSize(t, s).params;
            && 0.0 < p.scaleX <= 1.0 && 0.0 < p.scaleY <= 1.0
            && (p.scaleX == 1.0 || p.scaleY == 1.0)
            && (s.width >= s.height ==> p.scaleX == 1.0)
            && (s.height >= s.width ==> p.scaleY == 1.0)
            && p.scaleX * s.height as real == p.scaleY * s.width as real
  {
    var p := SetImageSize(t, s).params;
    assert p.imageSize == s && ScalesFit(p);
    AspectScalesFit(s.width, s.height, p.scaleX, p.scaleY);
  }

  /** The arithmetic of `ImageScalesFit`, on the two scales alone. */
  lemma AspectScalesFit(width: nat, height: nat, scaleX: real, scaleY: real)
    requires width > 0 && height > 0
    requires scaleX == AspectScale(width, height) && scaleY == AspectScale(height, width)
    ensures && 0.0 < scaleX <= 1.0 && 0.0 < scaleY <= 1.0
            && (scaleX == 1.0 || scaleY == 1.0)
            && (width >= height ==> scaleX == 1.0)
            && (height >= width ==> scaleY == 1.0)
            && scaleX * height as real == scaleY * width as real
  {
    var w, h := width as real, height as real;
    if width < height {
      assert w / h < 1.0;
      assert scaleX == w / h && scaleY == 1.0;
      assert scaleX * h == w;
    } else if height < width {
      assert h / w < 1.0;
      assert scaleY == h / w && scaleX == 1.0;
      assert scaleY * w == h;
    } else {
      assert w / h == 1.0 && h / w == 1.0;
    }
  }

  /** The operations a caller performs on a transform. */
  datatype Command =
    | ImageSizeTo(size: Size)
    | RotationTo(angle: real)
    | ViewrectTo(viewrect: Rect)
    | HorizontalFlipTo(flip: bool)
    | VerticalFlipTo(flip: bool)
    | WidgetSizeTo(widgetSize: Size)
    | RequestMatrix

  /** The command is defined for the transform's kind. */
  predicate Allowed(kind: Kind, c: Command)
  {
    c.WidgetSizeTo? ==> kind == WidgetToFits
  }

  function Step(t: Transform, c: Command): (r: Transform)
    requires Allowed(t.kind, c)
    ensures r.kind == t.kind
    ensures Consistent(t) ==> Consistent(r)
    ensures ScalesFit(t.params) ==> ScalesFit(r.params)
  {
    match c
    case ImageSizeTo(s) => SetImageSize(t, s)
    case RotationTo(a) => SetRotation(t, a)
    case ViewrectTo(v) => SetViewrect(t, v)
    case HorizontalFlipTo(f) => SetHorizontalFlip(t, f)
    case VerticalFlipTo(f) => SetVerticalFlip(t, f)
    case WidgetSizeTo(s) => SetWidgetSize(t, s)
    case RequestMatrix => TransformMatrix(t).0
  }

  /** The transform after a sequence of commands, first to last. */
  function Run(t: Transform, cs: seq<Command>): Transform
    requires forall i :: 0 <= i < |cs| ==> Allowed(t.kind, cs[i])
    decreases |cs|
  {
    if |cs| == 0 then t
    else
      var t' := Step(t, cs[0]);
      Run(t', cs[1..])
  }

  /** Whatever the callers do, a matrix request returns the recompute of the
      current parameters: the cache never serves a stale matrix. */
  lemma {:induction false} RunKeepsCacheFresh(t: Transform, cs: seq<Command>)
    requires Consistent(t)
    requires forall i :: 0 <= i < |cs| ==> Allowed(t.kind, cs[i])
    decreases |cs|
    ensures Run(t, cs).kind == t.kind
    ensures Consistent(Run(t, cs))
    ensures TransformMatrix(Run(t, cs)).1 == Recompute(t.kind, Run(t, cs).params)
  {
    if |cs| > 0 {
      var t' := Step(t, cs[0]);
      assert forall i :: 0 <= i < |cs[1..]| ==> Allowed(t'.kind, cs[1..][i]);
      RunKeepsCacheFresh(t', cs[1..]);
    }
  }

  /** Whatever the callers do, the aspect scales stay those of the current
      image size. */
  lemma {:induction false} RunKeepsScalesFit(t: Transform, cs: seq<Command>)
    requires ScalesFit(t.params)
    requires forall i :: 0 <= i < |cs| ==> Allowed(t.kind, cs[i])
    decreases |cs|
    ensures ScalesFit(Run(t, cs).params)
  {
    if |cs| > 0 {
      var t' := Step(t, cs[0]);
      assert forall i :: 0 <= i < |cs[1..]| ==> Allowed(t'.kind, cs[1..][i]);
      RunKeepsScalesFit(t', cs[1..]);
    }
  }

  /** Every transform built by a constructor and then used serves the
      recompute of its current parameters. */
  lemma ConstructedTransformsStayFresh(kind: Kind, cs: seq<Command>)
    requires forall i :: 0 <= i < |cs| ==> Allowed(kind, cs[i])
    ensures TransformMatrix(Run(NewTransform(kind), cs)).1
         == Recompute(kind, Run(NewTransform(kind), cs).params)
  {
    RunKeepsCacheFresh(NewTransform(kind), cs);
  }

  /** The last step of the widget-to-image rule along one axis of a widget
      w pixels wide: translate by -(w-1)/w after scaling by 2/w. */
  function WidgetPixelToViewrect(x: real, w: nat): (v: real)
    requires w > 0
    ensures v * w as real == 2.0 * x - (w - 1) as real
  {
    2.0 / w as real * x - (w - 1) as real / w as real
  }

  /** The inverse step: from the view rectangle's (-1, 1) back to pixels. */
  function ViewrectToWidgetPixel(v: real, w: nat): (x: real)
    requires w > 0
    ensures 2.0 * x == v * w as real + (w - 1) as real
  {
    (v * w as real + (w - 1) as real) / 2.0
  }

  /** The two steps are inverse, the first and last pixel map to mirrored
      points, and mirrored pixels map to mirrored points. */
  lemma WidgetPixelSteps(x: real, v: real, w: nat)
    requires w > 0
    ensures ViewrectToWidgetPixel(WidgetPixelToViewrect(x, w), w) == x
    ensures WidgetPixelToViewrect(ViewrectToWidgetPixel(v, w), w) == v
    ensures WidgetPixelToViewrect(0.0, w) == -((w - 1) as real / w as real)
    ensures WidgetPixelToViewrect((w - 1) as real, w) == (w - 1) as real / w as real
    ensures WidgetPixelToViewrect((w - 1) as real - x, w) == -WidgetPixelToViewrect(x, w)
  {
    var n := w as real;
    var a := WidgetPixelToViewrect(x, w);
    var b := WidgetPixelToViewrect((w - 1) as real - x, w);
    assert (a + b) * n == 0.0;
    var y := ViewrectToWidgetPixel(v, w);
    assert WidgetPixelToViewrect(y, w) * n == v * n;
  }
}
