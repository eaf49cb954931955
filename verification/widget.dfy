/**
 * The image widget's logic: the physical value under the cursor, the choice
 * of a rendering plan by element type, (re)initialisation with rollback when
 * the header-data unit changes, the colour-map and level controls, and the
 * early returns of the rotation and flip controls. Shader programs, textures
 * and the view-rectangle geometry stay outside the model; what they report
 * is a parameter.
 */
module Widget {
  import opened Wrappers
  import opened Geometry
  import opened BigEndian
  import opened Fits
  import ShaderUniforms
  import Transform

  // ---------------------------------------------------------------------
  // Samples

  /** IEEE-754 single and double precision decoding of big-endian bytes. */
  datatype FloatDecoders = FloatDecoders(single: seq<byte> -> real, double: seq<byte> -> real)

  /** The element types stored as integers. */
  predicate IsInteger(t: ElementType)
  {
    t != F32 && t != F64
  }

  /** A stored element after the byte swap: the big-endian reading of its
      bytes, unsigned for 8-bit samples, two's complement otherwise. An
      integer sample is a whole number within its type's range. */
  function DecodeSample(t: ElementType, bs: seq<byte>, fd: FloatDecoders): (v: real)
    requires |bs| == ElementSize(t)
    ensures IsInteger(t) ==> v == v.Floor as real && InSampleRange(t, v.Floor)
    ensures t == U8 ==> v == Unsigned(bs) as real
    ensures IsInteger(t) && t != U8 ==> v == Signed(bs) as real
    ensures t == F32 ==> v == fd.single(bs)
    ensures t == F64 ==> v == fd.double(bs)
  {
    match t
    case U8 => Unsigned(bs) as real
    case I16 => Signed(bs) as real
    case I32 => Signed(bs) as real
    case I64 => Signed(bs) as real
    case F32 => fd.single(bs)
    case F64 => fd.double(bs)
  }

  /** The integers an element of type `t` can hold. */
  predicate InSampleRange(t: ElementType, v: int)
    requires IsInteger(t)
  {
    if t == U8 then 0 <= v < 256 else -Half(ElementSize(t)) <= v < Half(ElementSize(t))
  }

  /** How a writer stores integer `v` as an element of type `t`: the low
      bytes of its two's-complement form, most significant first. */
  function EncodeSample(t: ElementType, v: int): (bs: seq<byte>)
    requires IsInteger(t)
    ensures |bs| == ElementSize(t)
  {
    EncodeUnsigned(v % Pow256(ElementSize(t)), ElementSize(t))
  }

  /** Decoding a stored integer gives it back when it is in range. */
  lemma DecodeEncodedSample(t: ElementType, v: int, fd: FloatDecoders)
    requires IsInteger(t) && InSampleRange(t, v)
    ensures DecodeSample(t, EncodeSample(t, v), fd) == v as real
  {
    var n := ElementSize(t);
    var p := Pow256(n);
    var bs := EncodeSample(t, v);
    UnsignedRoundTrip(v % p, n);
    assert Unsigned(bs) == v % p;
    if t == U8 {
      ModOfRange(v, p);
    } else {
      SignBit(bs);
      assert p == 2 * Half(n);
      ModOfRange(v, p);
    }
  }

  /** Euclidean remainder of a value within one modulus of zero. */
  lemma ModOfRange(v: int, p: int)
    requires p > 0 && -p <= v < p
    ensures v % p == if v < 0 then v + p else v
  {
    if v >= 0 {
      DivModUnique(v, p, 0, v);
    } else {
      var q, r := v / p, v % p;
      assert v == q * p + r && 0 <= r < p;
      if q > -1 {
        MulLeft(0, q, p);
      }
      assert q == -1;
    }
  }

  /** The bytes of element (x, y) in row-major order. */
  function SampleBytes(d: DataUnit, x: nat, y: nat): (bs: seq<byte>)
    requires !d.EmptyDataUnit? && WellFormed(d)
    requires x < d.image.width && y < d.image.height
    ensures |bs| == ElementSize(ElementTypeOf(d).value)
  {
    var size := ElementSize(ElementTypeOf(d).value);
    var k := y * d.image.width + x;
    SampleInBounds(x, y, d.image.width, d.image.height, size);
    d.image.raw[k * size .. k * size + size]
  }

  lemma SampleInBounds(x: nat, y: nat, w: nat, h: nat, size: nat)
    requires x < w && y < h
    ensures (y * w + x) * size + size <= size * h * w
  {
    assert y * w + x + 1 <= (y + 1) * w;
    assert (y + 1) * w <= h * w by {
      MulLeft(y + 1, h, w);
    }
    MulLeft(y * w + x + 1, h * w, size);
    assert (y * w + x) * size + size == (y * w + x + 1) * size;
    assert (h * w) * size == size * h * w;
  }

  /** The physical value of a stored number, as section 4.4.2.5 of the
      FITS Standard (version 4.0) defines it from BSCALE and BZERO. */
  function Physical(stored: real, bscale: real, bzero: real): real
  {
    stored * bscale + bzero
  }

  /** `HDUValueGetter`: the physical value of element (x, y), the decoded
      sample times BSCALE plus BZERO. The empty unit has no values; asking
      it is an assertion failure, so it is excluded here. */
  function ValueAt(hdu: HeaderDataUnit, x: nat, y: nat, toDouble: string -> Option<real>, fd: FloatDecoders): (v: real)
    requires !hdu.data.EmptyDataUnit? && WellFormed(hdu.data)
    requires x < hdu.data.image.width && y < hdu.data.image.height
    ensures v == DecodeSample(ElementTypeOf(hdu.data).value, SampleBytes(hdu.data, x, y), fd)
                 * Bscale(hdu.header, toDouble) + Bzero(hdu.header, toDouble)
  {
    var t := ElementTypeOf(hdu.data).value;
    Physical(DecodeSample(t, SampleBytes(hdu.data, x, y), fd), Bscale(hdu.header, toDouble), Bzero(hdu.header, toDouble))
  }

  /** The stored form of each of the integer samples `vs`. */
  function SampleParts(t: ElementType, vs: seq<int>): (parts: seq<seq<byte>>)
    requires IsInteger(t)
    ensures |parts| == |vs|
    ensures forall i :: 0 <= i < |vs| ==> |parts[i]| == ElementSize(t) && parts[i] == EncodeSample(t, vs[i])
  {
    seq(|vs|, i requires 0 <= i < |vs| => EncodeSample(t, vs[i]))
  }

  /** Byte strings one after another. */
  function Concat(parts: seq<seq<byte>>): seq<byte>
  {
    if |parts| == 0 then [] else parts[0] + Concat(parts[1..])
  }

  /** The bytes a writer produces for integer samples `vs`, first to last. */
  function EncodeSamples(t: ElementType, vs: seq<int>): (bs: seq<byte>)
    requires IsInteger(t)
  {
    Concat(SampleParts(t, vs))
  }

  /** Concatenating m parts of n bytes gives m*n bytes, and part k occupies
      bytes k*n up to (k+1)*n. */
  lemma {:induction false} ConcatAt(parts: seq<seq<byte>>, n: nat, k: nat)
    requires forall i :: 0 <= i < |parts| ==> |parts[i]| == n
    requires k < |parts|
    ensures |Concat(parts)| == |parts| * n
    ensures k * n + n <= |Concat(parts)|
    ensures Concat(parts)[k * n .. k * n + n] == parts[k]
  {
    var head, rest := parts[0], Concat(parts[1..]);
    assert Concat(parts) == head + rest;
    if |parts| == 1 {
      assert parts[1..] == [];
      assert (head + rest)[0 .. n] == head;
    } else {
      var k' := if k == 0 then 0 else k - 1;
      ConcatAt(parts[1..], n, k');
      assert |Concat(parts)| == n + (|parts| - 1) * n;
      if k == 0 {
        assert (head + rest)[0 .. n] == head;
      } else {
        assert parts[1..][k - 1] == parts[k];
        assert k * n == (k - 1) * n + n by {
          MulPred(k, n);
        }
        assert (head + rest)[k * n .. k * n + n] == rest[(k - 1) * n .. (k - 1) * n + n];
      }
    }
  }

  lemma MulPred(k: nat, n: nat)
    requires k > 0
    ensures k * n == (k - 1) * n + n
  {
  }

  /** For an image written from integer samples, the value at (x, y) is the
      sample at y*width + x, scaled by BSCALE and shifted by BZERO. */
  lemma ValueOfWrittenImage(t: ElementType, vs: seq<int>, height: nat, width: nat, hdu: HeaderDataUnit,
                            x: nat, y: nat, toDouble: string -> Option<real>, fd: FloatDecoders)
    requires IsInteger(t)
    requires forall i :: 0 <= i < |vs| ==> InSampleRange(t, vs[i])
    requires |vs| == height * width
    requires hdu.data == MakeDataUnit(t, Image(height, width, EncodeSamples(t, vs)))
    requires x < width && y < height
    ensures WellFormed(hdu.data)
    ensures y * width + x < |vs|
    ensures ValueAt(hdu, x, y, toDouble, fd)
         == Physical(vs[y * width + x] as real, Bscale(hdu.header, toDouble), Bzero(hdu.header, toDouble))
  {
    var k := y * width + x;
    WrittenImageSample(t, vs, height, width, x, y);
    assert ElementTypeOf(hdu.data) == Some(t) && hdu.data.image == Image(height, width, EncodeSamples(t, vs));
    assert InSampleRange(t, vs[k]);
    ValueOfStoredSample(hdu, x, y, vs[k], toDouble, fd);
  }

  /** An element whose bytes store integer v has the value v*BSCALE + BZERO. */
  lemma ValueOfStoredSample(hdu: HeaderDataUnit, x: nat, y: nat, v: int,
                            toDouble: string -> Option<real>, fd: FloatDecoders)
    requires !hdu.data.EmptyDataUnit? && WellFormed(hdu.data)
    requires x < hdu.data.image.width && y < hdu.data.image.height
    requires IsInteger(ElementTypeOf(hdu.data).value)
    requires InSampleRange(ElementTypeOf(hdu.data).value, v)
    requires SampleBytes(hdu.data, x, y) == EncodeSample(ElementTypeOf(hdu.data).value, v)
    ensures ValueAt(hdu, x, y, toDouble, fd) == Physical(v as real, Bscale(hdu.header, toDouble), Bzero(hdu.header, toDouble))
  {
    DecodeEncodedSample(ElementTypeOf(hdu.data).value, v, fd);
  }

  /** The bytes of element (x, y) of a written image are the encoding of
      sample y*width + x. */
  lemma WrittenImageSample(t: ElementType, vs: seq<int>, height: nat, width: nat, x: nat, y: nat)
    requires IsInteger(t)
    requires |vs| == height * width
    requires x < width && y < height
    ensures y * width + x < |vs|
    ensures WellFormed(MakeDataUnit(t, Image(height, width, EncodeSamples(t, vs))))
    ensures SampleBytes(MakeDataUnit(t, Image(height, width, EncodeSamples(t, vs))), x, y)
         == EncodeSample(t, vs[y * width + x])
  {
    var parts := SampleParts(t, vs);
    var d := MakeDataUnit(t, Image(height, width, Concat(parts)));
    LaidOutSample(d, parts, ElementSize(t), x, y);
  }

  /** A data unit whose bytes are equal-sized parts laid out one after
      another: it is well formed and element (x, y) is part y*width + x. */
  lemma LaidOutSample(d: DataUnit, parts: seq<seq<byte>>, n: nat, x: nat, y: nat)
    requires !d.EmptyDataUnit? && ElementSize(ElementTypeOf(d).value) == n
    requires d.image.raw == Concat(parts)
    requires forall i :: 0 <= i < |parts| ==> |parts[i]| == n
    requires |parts| == d.image.height * d.image.width
    requires x < d.image.width && y < d.image.height
    ensures y * d.image.width + x < |parts|
    ensures WellFormed(d)
    ensures SampleBytes(d, x, y) == parts[y * d.image.width + x]
  {
    FlatSample(parts, n, d.image.height, d.image.width, x, y, y * d.image.width + x);
    assert WellFormed(d);
    SampleBytesAt(d, x, y);
  }

  /** Parts laid out row by row: the layout has n*height*width bytes, and
      part y*width + x sits at bytes (y*width + x)*n onwards. */
  lemma FlatSample(parts: seq<seq<byte>>, n: nat, height: nat, width: nat, x: nat, y: nat, k: nat)
    requires forall i :: 0 <= i < |parts| ==> |parts[i]| == n
    requires |parts| == height * width
    requires x < width && y < height && k == y * width + x
    ensures k < |parts|
    ensures |Concat(parts)| == n * height * width
    ensures k * n + n <= |Concat(parts)|
    ensures Concat(parts)[k * n .. k * n + n] == parts[k]
  {
    SampleInBounds(x, y, width, height, 1);
    ConcatAt(parts, n, k);
    CellCount(|parts|, height, width, n);
  }

  lemma SampleBytesAt(d: DataUnit, x: nat, y: nat)
    requires !d.EmptyDataUnit? && WellFormed(d)
    requires x < d.image.width && y < d.image.height
    ensures var size := ElementSize(ElementTypeOf(d).value);
            var k := y * d.image.width + x;
            k * size + size <= |d.image.raw| &&
            SampleBytes(d, x, y) == d.image.raw[k * size .. k * size + size]
  {
    SampleInBounds(x, y, d.image.width, d.image.height, ElementSize(ElementTypeOf(d).value));
  }

  lemma CellCount(cells: nat, height: nat, width: nat, n: nat)
    requires cells == height * width
    ensures cells * n == n * height * width
  {
  }

  /** A 16-bit image of two samples, stored as 00 05 FF FE, with BSCALE 2
      and BZERO 100: the samples are 5 and -2, the values 110 and 96. */
  lemma SixteenBitExample(toDouble: string -> Option<real>, fd: FloatDecoders)
    requires toDouble("2") == Some(2.0) && toDouble("100") == Some(100.0)
    ensures var hdu := HeaderDataUnit(HeaderUnit(map["BSCALE" := "2", "BZERO" := "100"]),
                                      DataUnitI16(Image(1, 2, [0, 5, 255, 254])));
            && WellFormed(hdu.data)
            && ValueAt(hdu, 0, 0, toDouble, fd) == 110.0
            && ValueAt(hdu, 1, 0, toDouble, fd) == 96.0
  {
    var hdu := HeaderDataUnit(HeaderUnit(map["BSCALE" := "2", "BZERO" := "100"]),
                              DataUnitI16(Image(1, 2, [0, 5, 255, 254])));
    assert Bscale(hdu.header, toDouble) == 2.0;
    assert Bzero(hdu.header, toDouble) == 100.0;
    var a: seq<byte> := [0, 5];
    var b: seq<byte> := [255, 254];
    assert SampleBytes(hdu.data, 0, 0) == a;
    assert SampleBytes(hdu.data, 1, 0) == b;
    assert Unsigned(a[1..]) == 5;
    assert Unsigned(b[1..]) == 254;
  }

  /** What the cursor position reports: the image position, and the value
      there when the position lies on the image. */
  datatype Pixel = Pixel(x: int, y: int, value: Option<real>)

  /** `pixelFromWidgetCoordinate`, from the image position the widget-to-image
      transform yields. */
  function PixelAt(hdu: HeaderDataUnit, x: int, y: int, toDouble: string -> Option<real>, fd: FloatDecoders): (p: Pixel)
    requires !hdu.data.EmptyDataUnit? && WellFormed(hdu.data)
    ensures p.x == x && p.y == y
    ensures p.value.Some? <==> Contains(ImageSize(hdu.data.image), x, y)
    ensures p.value.Some? ==> p.value.value == ValueAt(hdu, x, y, toDouble, fd)
  {
    if Contains(ImageSize(ImageDataUnit(hdu.data).value), x, y) then
      Pixel(x, y, Some(ValueAt(hdu, x, y, toDouble, fd)))
    else Pixel(x, y, None)
  }

  // ---------------------------------------------------------------------
  // Plans

  /** The rendering plans, one per supported element type. */
  datatype Plan = Uint8Plan | Int16Plan | Int32Plan | Int64Plan | FloatPlan

  /** The element type a plan renders. */
  function PlanElementType(p: Plan): ElementType
  {
    match p
    case Uint8Plan => U8
    case Int16Plan => I16
    case Int32Plan => I32
    case Int64Plan => I64
    case FloatPlan => F32
  }

  /** `PlanCreator`: a plan for every typed unit except double precision. */
  const PlanCreator: Visitor<Option<Plan>> := Visitor(
    None,
    _ => Some(Uint8Plan),
    _ => Some(Int16Plan),
    _ => Some(Int32Plan),
    _ => Some(Int64Plan),
    _ => Some(FloatPlan),
    _ => None)

  function PlanFor(d: DataUnit): (r: Option<Plan>)
    ensures r.None? <==> d.EmptyDataUnit? || d.DataUnitF64?
    ensures r.Some? ==> PlanElementType(r.value) == ElementTypeOf(d).value
  {
    Apply(d, PlanCreator)
  }

  /** Every element type but F64 has exactly one plan. */
  lemma PlanForEveryType(t: ElementType, image: Image)
    ensures t != F64 <==> PlanFor(MakeDataUnit(t, image)).Some?
    ensures forall p :: PlanElementType(p) == t ==> PlanFor(MakeDataUnit(t, image)) == Some(p)
  {
  }

  // ---------------------------------------------------------------------
  // The widget

  datatype WidgetError = PlanCreationError | ShaderLoadError

  /** The channel layout of a plan's texture. */
  datatype TextureFormat = TextureFormat(channels: nat, channelSize: nat)

  /** What the graphics objects outside the model report: each plan's
      texture layout and value range, whether the shader program built from
      each plan's own shader sources links, the header value conversion,
      and the uniform calculator's defaults. */
  datatype Graphics = Graphics(
    formatOf: Plan -> TextureFormat,
    minMaxOf: HeaderDataUnit -> (real, real),
    linkSucceeds: Plan -> bool,
    toDouble: string -> Option<real>,
    initialMinMax: (real, real),
    initialColorMapSize: int)

  predicate ValidFormat(f: TextureFormat)
  {
    f.channels < 256 && f.channelSize < 256 && ShaderUniforms.ValidLayout(f.channels, f.channelSize)
  }

  predicate ValidGraphics(g: Graphics)
  {
    forall p: Plan :: ValidFormat(g.formatOf(p))
  }

  datatype Widget = Widget(
    hdu: HeaderDataUnit,
    plan: Option<Plan>,
    uniforms: ShaderUniforms.Uniforms,
    colormapWidths: seq<int>,
    colormapIndex: int,
    view: Transform.Transform,
    widgetToFits: Transform.Transform)

  /** The widget's invariant: an image unit, an up-to-date calculator, a
      valid colour-map index, and the two transforms of their kinds, each
      with a cached matrix that is either stale or current, turned and
      flipped alike. */
  predicate Valid(w: Widget)
  {
    && ImageDataUnit(w.hdu.data).Some?
    && ShaderUniforms.UpToDate(w.uniforms)
    && 0 <= w.colormapIndex < |w.colormapWidths|
    && w.view.kind == Transform.ViewToDisplay
    && w.widgetToFits.kind == Transform.WidgetToFits
    && Transform.Consistent(w.view) && Transform.Consistent(w.widgetToFits)
    && w.view.params.angle == w.widgetToFits.params.angle
    && w.view.params.hFlip == w.widgetToFits.params.hFlip
    && w.view.params.vFlip == w.widgetToFits.params.vFlip
  }

  /** The constructor: default transforms, a one-channel one-byte
      calculator with BZERO 0 and BSCALE 1, the first colour map, no plan. */
  function NewWidget(hdu: HeaderDataUnit, colormapWidths: seq<int>, g: Graphics): (w: Widget)
    requires ImageDataUnit(hdu.data).Some?
    requires |colormapWidths| == 2
    ensures Valid(w) && w.hdu == hdu && w.plan.None? && w.colormapIndex == 0
    ensures w.colormapWidths == colormapWidths
    ensures w.view == Transform.NewTransform(Transform.ViewToDisplay)
    ensures w.widgetToFits == Transform.NewTransform(Transform.WidgetToFits)
    ensures w.uniforms == ShaderUniforms.NewUniforms(1, 1, 0.0, 1.0, g.initialMinMax, g.initialColorMapSize)
  {
    Widget(hdu, None,
           ShaderUniforms.NewUniforms(1, 1, 0.0, 1.0, g.initialMinMax, g.initialColorMapSize),
           colormapWidths, 0,
           Transform.NewTransform(Transform.ViewToDisplay),
           Transform.NewTransform(Transform.WidgetToFits))
  }

  /** The calculator `initializeGLObjects` installs for a plan. */
  function UniformsFor(w: Widget, p: Plan, g: Graphics): (u: ShaderUniforms.Uniforms)
    requires Valid(w) && ValidGraphics(g)
    ensures ShaderUniforms.UpToDate(u)
    ensures u.layout.channels == g.formatOf(p).channels
    ensures u.layout.channelSize == g.formatOf(p).channelSize
    ensures u.layout.bzero == Bzero(w.hdu.header, g.toDouble)
    ensures u.layout.bscale == Bscale(w.hdu.header, g.toDouble)
    ensures u.minmax == g.minMaxOf(w.hdu)
    ensures u.colormapSize == w.colormapWidths[w.colormapIndex]
    ensures g.minMaxOf(w.hdu) != g.initialMinMax || w.colormapWidths[w.colormapIndex] != g.initialColorMapSize ==>
              u.cz == ShaderUniforms.ComputeCz(u.layout, u.minmax, u.colormapSize)
    ensures g.minMaxOf(w.hdu) == g.initialMinMax && w.colormapWidths[w.colormapIndex] == g.initialColorMapSize ==>
              u.cz.None?
  {
    var f := g.formatOf(p);
    var u0 := ShaderUniforms.NewUniforms(f.channels, f.channelSize,
                                         Bzero(w.hdu.header, g.toDouble), Bscale(w.hdu.header, g.toDouble),
                                         g.initialMinMax, g.initialColorMapSize);
    var u1 := ShaderUniforms.SetMinMax(u0, g.minMaxOf(w.hdu));
    ShaderUniforms.SettersIdempotentAndUpToDate(u0, g.minMaxOf(w.hdu), w.colormapWidths[w.colormapIndex]);
    ShaderUniforms.SettersIdempotentAndUpToDate(u1, g.minMaxOf(w.hdu), w.colormapWidths[w.colormapIndex]);
    ShaderUniforms.SetColorMapSize(u1, w.colormapWidths[w.colormapIndex])
  }

  /** `initializeGLObjects`: picks the plan for the current unit, links the
      shader program built from that plan's sources, and only then installs
      the plan, the image size of the widget-to-image transform and a fresh
      calculator. A failure leaves the widget untouched. */
  function InitializeGLObjects(w: Widget, g: Graphics): (r: Result<Widget, WidgetError>)
    requires Valid(w) && ValidGraphics(g)
    ensures r.Failure? <==> PlanFor(w.hdu.data).None? || !g.linkSucceeds(PlanFor(w.hdu.data).value)
    ensures r.Failure? ==> (r.error == PlanCreationError <==> PlanFor(w.hdu.data).None?)
    ensures r.Success? ==>
      && Valid(r.value)
      && r.value.plan == PlanFor(w.hdu.data)
      && r.value.hdu == w.hdu && r.value.view == w.view
      && r.value.colormapIndex == w.colormapIndex && r.value.colormapWidths == w.colormapWidths
      && r.value.widgetToFits == Transform.SetImageSize(w.widgetToFits, ImageSize(w.hdu.data.image))
      && r.value.widgetToFits.params.imageSize == ImageSize(w.hdu.data.image)
      && r.value.uniforms == UniformsFor(w, r.value.plan.value, g)
  {
    var plan := PlanFor(w.hdu.data);
    if plan.None? then Failure(PlanCreationError)
    else if !g.linkSucceeds(plan.value) then Failure(ShaderLoadError)
    else
      var wtf := Transform.SetImageSize(w.widgetToFits, ImageSize(ImageDataUnit(w.hdu.data).value));
      Success(w.(plan := plan, widgetToFits := wtf, uniforms := UniformsFor(w, plan.value, g)))
  }

  /** What a caller of `setHDU` catches: the widget's own error, or a bare
      `std::exception` with the dynamic type of the original lost. */
  datatype Rethrown = Exactly(kind: WidgetError) | BareException

  /** The outcome of `setHDU`: the widget afterwards, and either whether
      the view must be refitted to a new image size or the error rethrown. */
  datatype SetHduOutcome =
    | Switched(widget: Widget, refit: bool)
    | RolledBack(widget: Widget, error: Rethrown)

  /** `setHDU` as written: the handler catches `const std::exception& e`
      and rethrows with `throw e;`, which throws a copy of the static type
      `std::exception`, so the kind of error is lost. */
  function SetHduAsWritten(w: Widget, hdu: HeaderDataUnit, g: Graphics): (r: SetHduOutcome)
    requires Valid(w) && ValidGraphics(g)
    requires ImageDataUnit(hdu.data).Some?
    ensures r.RolledBack? <==> PlanFor(hdu.data).None? || !g.linkSucceeds(PlanFor(hdu.data).value)
    ensures r.RolledBack? ==> r.widget == w && r.error == BareException
    ensures r.Switched? ==> InitializeGLObjects(w.(hdu := hdu), g) == Success(r.widget)
  {
    match InitializeGLObjects(w.(hdu := hdu), g)
    case Success(w') => Switched(w', ImageSize(hdu.data.image) != ImageSize(w.hdu.data.image))
    case Failure(_) => RolledBack(w, BareException)
  }

  /** `setHDU` as evidently intended: switches to `hdu` and reinitialises;
      on failure the previous unit is restored and, since nothing else was
      changed before the failure, the widget is exactly as before, and the
      error that stopped the initialisation reaches the caller unchanged. */
  function SetHdu(w: Widget, hdu: HeaderDataUnit, g: Graphics): (r: SetHduOutcome)
    requires Valid(w) && ValidGraphics(g)
    requires ImageDataUnit(hdu.data).Some?
    ensures r.RolledBack? ==> r.widget == w
    ensures r.RolledBack? <==> PlanFor(hdu.data).None? || !g.linkSucceeds(PlanFor(hdu.data).value)
    ensures r.RolledBack? ==> r.error.Exactly?
    ensures r.RolledBack? ==> (r.error.kind == PlanCreationError <==> PlanFor(hdu.data).None?)
    ensures r.Switched? ==> InitializeGLObjects(w.(hdu := hdu), g) == Success(r.widget)
    ensures r.Switched? ==>
      && Valid(r.widget) && r.widget.hdu == hdu
      && r.widget.plan == PlanFor(hdu.data)
      && (r.refit <==> ImageSize(hdu.data.image) != ImageSize(w.hdu.data.image))
  {
    match InitializeGLObjects(w.(hdu := hdu), g)
    case Success(w') => Switched(w', ImageSize(hdu.data.image) != ImageSize(w.hdu.data.image))
    case Failure(e) => RolledBack(w, Exactly(e))
  }

  /** The two agree on every switch and on the widget after every rollback,
      and differ in exactly what the caller catches: a double-precision
      image, which has no plan, reaches the caller as a bare exception
      rather than as a plan creation error. */
  lemma SetHduLosesErrorKind(w: Widget, hdu: HeaderDataUnit, g: Graphics)
    requires Valid(w) && ValidGraphics(g)
    requires ImageDataUnit(hdu.data).Some?
    ensures SetHduAsWritten(w, hdu, g).Switched? ==> SetHduAsWritten(w, hdu, g) == SetHdu(w, hdu, g)
    ensures SetHduAsWritten(w, hdu, g).RolledBack? ==>
      && SetHdu(w, hdu, g).RolledBack?
      && SetHduAsWritten(w, hdu, g).widget == SetHdu(w, hdu, g).widget
      && SetHduAsWritten(w, hdu, g).error != SetHdu(w, hdu, g).error
    ensures hdu.data.DataUnitF64? ==>
      && SetHduAsWritten(w, hdu, g).error == BareException
      && SetHdu(w, hdu, g).error == Exactly(PlanCreationError)
  {
  }

  /** Switching to a unit and back again restores the unit and the plan,
      and installs the calculator a fresh initialisation of that unit
      installs: the widget state depends only on the unit shown. */
  lemma SetHduBack(w: Widget, hdu: HeaderDataUnit, g: Graphics)
    requires Valid(w) && ValidGraphics(g)
    requires ImageDataUnit(hdu.data).Some?
    requires SetHdu(w, hdu, g).Switched?
    requires PlanFor(w.hdu.data).Some?
    requires g.linkSucceeds(PlanFor(w.hdu.data).value)
    ensures var back := SetHdu(SetHdu(w, hdu, g).widget, w.hdu, g);
            && back.Switched?
            && back.widget.hdu == w.hdu
            && back.widget.plan == PlanFor(w.hdu.data)
            && back.widget.uniforms == UniformsFor(w, PlanFor(w.hdu.data).value, g)
  {
  }

  /** `changeLevels`: a new display window for the calculator. */
  function ChangeLevels(w: Widget, minmax: (real, real)): (r: Widget)
    requires Valid(w)
    ensures Valid(r) && r.uniforms.minmax == minmax
    ensures r == w.(uniforms := ShaderUniforms.SetMinMax(w.uniforms, minmax))
  {
    ShaderUniforms.SettersIdempotentAndUpToDate(w.uniforms, minmax, w.uniforms.colormapSize);
    w.(uniforms := ShaderUniforms.SetMinMax(w.uniforms, minmax))
  }

  /** `changeColorMap`: a different index also resizes the calculator's
      colour map. */
  function ChangeColorMap(w: Widget, index: int): (r: Widget)
    requires Valid(w)
    requires 0 <= index < |w.colormapWidths|
    ensures Valid(r) && r.colormapIndex == index
    ensures index == w.colormapIndex ==> r == w
    ensures index != w.colormapIndex ==>
      r.uniforms == ShaderUniforms.SetColorMapSize(w.uniforms, w.colormapWidths[index])
    ensures r == w.(colormapIndex := index, uniforms := r.uniforms)
  {
    if index != w.colormapIndex then
      ShaderUniforms.SettersIdempotentAndUpToDate(w.uniforms, w.uniforms.minmax, w.colormapWidths[index]);
      w.(colormapIndex := index, uniforms := ShaderUniforms.SetColorMapSize(w.uniforms, w.colormapWidths[index]))
    else w
  }

  /** Choosing the same colour map twice is choosing it once, and afterwards
      the calculator's colour-map size is that map's width. */
  lemma ChangeColorMapIdempotent(w: Widget, index: int)
    requires Valid(w)
    requires 0 <= index < |w.colormapWidths|
    requires w.uniforms.colormapSize == w.colormapWidths[w.colormapIndex]
    ensures ChangeColorMap(ChangeColorMap(w, index), index) == ChangeColorMap(w, index)
    ensures ChangeColorMap(w, index).uniforms.colormapSize == w.colormapWidths[index]
  {
  }

  /** `viewChanged`: both transforms follow the new view rectangle. */
  function ViewChanged(w: Widget, viewrect: Rect): (r: Widget)
    requires Valid(w)
    ensures Valid(r)
    ensures r.view.params.viewrect == viewrect && r.widgetToFits.params.viewrect == viewrect
    ensures r == w.(view := Transform.SetViewrect(w.view, viewrect),
                    widgetToFits := Transform.SetViewrect(w.widgetToFits, viewrect))
  {
    w.(view := Transform.SetViewrect(w.view, viewrect),
       widgetToFits := Transform.SetViewrect(w.widgetToFits, viewrect))
  }

  /** `setRotation`: returns at once for the current angle; otherwise both
      transforms turn to the new angle (the view-centre rotation is left to
      the view rectangle, outside the model). */
  function SetRotation(w: Widget, angle: real): (r: Widget)
    requires Valid(w)
    ensures Valid(r)
    ensures angle == w.view.params.angle ==> r == w
    ensures angle != w.view.params.angle ==>
      && r.view.params.angle == angle && r.widgetToFits.params.angle == angle
      && r.view.expired && r.widgetToFits.expired
    ensures angle != w.view.params.angle ==>
      && r.view == w.view.(params := w.view.params.(angle := angle), expired := true)
      && r.widgetToFits == w.widgetToFits.(params := w.widgetToFits.params.(angle := angle), expired := true)
    ensures r == w.(view := r.view, widgetToFits := r.widgetToFits)
  {
    if angle == w.view.params.angle then w
    else
      w.(view := Transform.SetRotation(w.view, angle),
         widgetToFits := Transform.SetRotation(w.widgetToFits, angle))
  }

  /** `setHorizontalFlip`: returns at once for the current state. */
  function SetHorizontalFlip(w: Widget, flip: bool): (r: Widget)
    requires Valid(w)
    ensures Valid(r)
    ensures flip == w.view.params.hFlip ==> r == w
    ensures flip != w.view.params.hFlip ==>
      && r.view.params.hFlip == flip && r.widgetToFits.params.hFlip == flip
      && r.view.expired && r.widgetToFits.expired
    ensures flip != w.view.params.hFlip ==>
      && r.view == w.view.(params := w.view.params.(hFlip := flip), expired := true)
      && r.widgetToFits == w.widgetToFits.(params := w.widgetToFits.params.(hFlip := flip), expired := true)
    ensures r == w.(view := r.view, widgetToFits := r.widgetToFits)
  {
    if flip == w.view.params.hFlip then w
    else
      w.(view := Transform.SetHorizontalFlip(w.view, flip),
         widgetToFits := Transform.SetHorizontalFlip(w.widgetToFits, flip))
  }

  /** `setVerticalFlip`: returns at once for the current state. */
  function SetVerticalFlip(w: Widget, flip: bool): (r: Widget)
    requires Valid(w)
    ensures Valid(r)
    ensures flip == w.view.params.vFlip ==> r == w
    ensures flip != w.view.params.vFlip ==>
      && r.view.params.vFlip == flip && r.widgetToFits.params.vFlip == flip
      && r.view.expired && r.widgetToFits.expired
    ensures flip != w.view.params.vFlip ==>
      && r.view == w.view.(params := w.view.params.(vFlip := flip), expired := true)
      && r.widgetToFits == w.widgetToFits.(params := w.widgetToFits.params.(vFlip := flip), expired := true)
    ensures r == w.(view := r.view, widgetToFits := r.widgetToFits)
  {
    if flip == w.view.params.vFlip then w
    else
      w.(view := Transform.SetVerticalFlip(w.view, flip),
         widgetToFits := Transform.SetVerticalFlip(w.widgetToFits, flip))
  }

  /** Repeating a rotation or flip request changes nothing. */
  lemma ControlsIdempotent(w: Widget, angle: real, flip: bool)
    requires Valid(w)
    ensures SetRotation(SetRotation(w, angle), angle) == SetRotation(w, angle)
    ensures SetHorizontalFlip(SetHorizontalFlip(w, flip), flip) == SetHorizontalFlip(w, flip)
    ensures SetVerticalFlip(SetVerticalFlip(w, flip), flip) == SetVerticalFlip(w, flip)
  {
  }
}
