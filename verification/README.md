# fips3 core, modelled in Dafny

fips3 is a viewer for FITS astronomical images. This project models the
part of it that turns a parsed FITS file into a picture and answers "what
is the value under the cursor". That part covers:

- **Fits** (`include/fits.h`): header units and their accessors;
  BSCALE/BZERO; the BITPIX code to element type mapping; the six typed data
  units plus the empty one; `imageDataUnit()` and the visitor dispatch; the
  file as a primary unit followed by extensions.
- **BigEndian**: FITS samples are stored most significant byte first, and
  the widget byte-swaps them on read. This module holds unsigned and
  two's-complement decoding and encoding, with their round trips.
- **ShaderUniforms** (`src/openglshaderunifroms.cpp`):
  - the channel weights `a`;
  - the `c`/`z` coefficients `update_cz` computes from the level window and
    the colour-map size;
  - the "recompute only on change" setters.
- **Transform** (`src/opengltransform.cpp`):
  - the view-to-display and widget-to-FITS transforms as a parameter record
    with an `expired` flag and a cached matrix;
  - the setters' early returns;
  - the aspect scales of `setImageSize`;
  - the widget-pixel to view-rectangle step of the widget-to-FITS chain.
- **Widget** (`src/openglwidget.cpp`):
  - the physical value of a pixel (`raw * BSCALE + BZERO` at offset
    `y*width + x`);
  - the pixel lookup;
  - the plan chosen by element type;
  - `initializeGLObjects` with its two error paths;
  - `setHDU` with rollback;
  - the level, colour-map, view, rotation and flip controls.
- **MainWindow** (`src/mainwindow.cpp`): choosing the unit to show (the
  primary unit, else the first extension with an image, else
  `NoImageInFITS`) and the initial window size.

Doubles and floats are modelled as `real`, and sizes as `nat`. Whatever the
graphics stack or Qt reports is a parameter of the model:

- texture formats, the data range and whether each plan's shader program
  links
  (`Widget.Graphics`);
- QVariant conversion (`string -> Option<T>`);
- IEEE float decoding (`Widget.FloatDecoders`);
- the screen size;
- whether the file could be opened.

The transform matrix is a symbolic value that is a function of the
parameters it was built from. The model states when the cache holds the
matrix of the current parameters; it does not compute the 4x4 geometry.

Three behaviours of the code shape the model:

- The `OpenGLShaderUniforms` constructor accepts any `channel_size` with
  one to four channels. Its `1 << (8 * channel_size)` overflows `int` from a
  channel size of 4 on; see `ShaderUniforms.NewUniforms` under "Left out".
- `update_cz` checks neither N > 1 nor max > min. The model computes what
  the C++ computes, and has no coefficients only where the C++ divides by
  zero.
- The constructor does not call `update_cz`, and the setters recompute only
  when the value differs.

## Model

| member | source | states |
|---|---|---|
| Fits.Header | include/fits.h:54-56 | `header(key)` succeeds exactly when the key is present, and returns its value; a missing key is an out-of-range lookup error |
| Fits.HeaderOr | include/fits.h:57-60 | the stored value when the key is present, otherwise the given default |
| Fits.HeaderAs | include/fits.h:61-66 | a missing key is an out-of-range error; a value that does not convert is `WrongHeaderValue(key, value)`; otherwise the converted value, and success exactly then |
| Fits.HeaderAsOr | include/fits.h:67-71 | the converted value when the key is present and converts; the default in both other cases |
| Fits.DefaultingAccessorsAgree | include/fits.h:54-71 | each defaulting accessor equals its throwing counterpart with failure replaced by the default |
| Fits.Bscale | include/fits.h:73 | BSCALE as a double, 1.0 when it is missing or does not convert |
| Fits.Bzero | include/fits.h:74 | BZERO as a double, 0.0 when it is missing or does not convert |
| Fits.BitpixToType | include/fits.h:203-219 | a recognised code maps to the type whose code it is; any other code is `UnsupportedBitpix(code)`, and no type has that code |
| Fits.BitpixRoundTrip | include/fits.h:203-219 | every element type's BITPIX code maps back to that type |
| Fits.ElementSizeMatchesBitpix | include/fits.h:203-219 | for a recognised code, `sizeof(T)` in bits is the absolute value of BITPIX |
| Fits.UnsupportedBitpixIsWrongHeaderValue | include/fits.h:40-46 | the unsupported-BITPIX error is a wrong-header-value error carrying the offending code |
| Fits.ElementTypeOf | include/fits.h:145-167 | a data unit has an element type exactly when it is not the empty unit |
| Fits.MakeDataUnit | include/fits.h:155-162 | the typed unit built for type T has element type T and holds the given image |
| Fits.TypedVariantsAreElementTypes | include/fits.h:145-167 | every non-empty data unit is the typed unit of its own element type and image |
| Fits.ImageDataUnit | include/fits.h:128-129 | the cast to an image succeeds exactly for the typed units, and yields their image |
| Fits.ImageSize | include/fits.h:142 | `size()` is (width, height) |
| Fits.Length | include/fits.h:166 | for a well-formed unit, the byte length divided by `sizeof(T)` is height*width |
| Fits.Apply | include/fits.h:106-123 | `apply` calls the empty handler on the empty unit, and otherwise the handler of the unit's element type on its image |
| BigEndian.Signed | src/openglwidget.cpp:35 | a big-endian two's-complement value of n bytes lies in [-2^(8n-1), 2^(8n-1)) |
| BigEndian.UnsignedRoundTrip | src/openglwidget.cpp:35 | decoding the n-byte big-endian encoding of v < 256^n gives v |
| BigEndian.EncodeUnsignedRoundTrip | src/openglwidget.cpp:35 | encoding the decoded value of a byte string gives the byte string back |
| BigEndian.SignedRoundTrip | src/openglwidget.cpp:35 | decoding the two's-complement encoding of an in-range v gives v |
| BigEndian.SignedEncodeRoundTrip | src/openglwidget.cpp:35 | encoding the two's-complement value of a byte string gives the byte string back |
| BigEndian.SignBit | src/openglwidget.cpp:35 | the first byte is at least 128 exactly when the unsigned value is in the upper half, i.e. the value is negative |
| Widget.DecodeSample | src/openglwidget.cpp:33-35 | a sample's bytes read big-endian: unsigned for 8-bit, two's complement for 16, 32 and 64 bits, so an integer sample is a whole number within its type's range; float samples go through the IEEE decoders |
| Widget.ValueAt | src/openglwidget.cpp:28-41 | for every element type, the value at (x, y) is the decoded sample of that element's bytes times BSCALE plus BZERO; `Widget.SampleBytesAt` places those bytes at offset (y*width + x)*sizeof(T) |
| Widget.DecodeEncodedSample | src/openglwidget.cpp:33-37 | for each integer element type, the byte-swapped read of a stored in-range sample is the sample |
| Widget.SampleBytesAt | src/openglwidget.cpp:35 | element (x, y) occupies the `sizeof(T)` bytes at offset (y*width + x)*sizeof(T), inside the unit |
| Widget.ValueOfStoredSample | src/openglwidget.cpp:33-37 | an element whose bytes store integer v has value v*BSCALE + BZERO |
| Widget.WrittenImageSample | src/openglwidget.cpp:35 | for an image written row by row from samples vs, the unit is well formed and element (x, y) holds the encoding of vs[y*width + x] |
| Widget.ValueOfWrittenImage | src/openglwidget.cpp:33-37 | for such an image, the value at (x, y) is vs[y*width + x]*BSCALE + BZERO, so the value lookup inverts writing |
| Widget.SixteenBitExample | src/openglwidget.cpp:33-37 | 16-bit bytes 00 05 FF FE with BSCALE 2 and BZERO 100 read as 110 and 96 |
| Widget.PixelAt | src/openglwidget.cpp:250-261 | the pixel carries a value exactly when the position lies in the image, and that value is the physical value there |
| Widget.PlanFor | src/openglwidget.cpp:119-146 | no plan, and so a plan-creation error, exactly for the empty unit and 64-bit floats; otherwise a plan of the unit's element type |
| Widget.PlanForEveryType | src/openglwidget.cpp:119-143 | every element type except `double` has a plan, and it is the plan of that type |
| Widget.NewWidget | src/openglwidget.cpp:82-100 | the constructed widget is consistent, holds the unit and the given colour maps, has no plan yet, selects colour map 0, starts both transforms at their defaults, and holds the calculator built with one channel, one byte, BZERO 0 and BSCALE 1 |
| Widget.UniformsFor | src/openglwidget.cpp:174-176 | the new uniforms take the texture's channels and channel size, the unit's BZERO and BSCALE, the data range and the current colour map's width; the coefficients are those of that range and width when either differs from the initial values, and not yet computed otherwise |
| Widget.InitializeGLObjects | src/openglwidget.cpp:116-177 | fails exactly when no plan exists or the shader program built from that plan's sources does not link, with `PlanCreationError` exactly in the first case; on success the widget holds the plan, the uniforms `Widget.UniformsFor` computes for it, and the widget-to-image transform after `setImageSize` with the unit's image size; unit, view and colour-map choice are unchanged |
| Widget.SetHduAsWritten | src/openglwidget.cpp:212-230 | as written: a successful switch is the widget `initializeGLObjects` produces for the new unit; a failed re-initialisation restores the previous widget unchanged, and what reaches the caller is a bare `std::exception`, whatever the error was |
| Widget.SetHdu | src/openglwidget.cpp:212-230 | as intended: a failed re-initialisation restores the previous widget unchanged and passes on the initialisation's own error, `PlanCreationError` exactly when the new unit has no plan; on success the widget is exactly the one `initializeGLObjects` produces for the new unit (its plan, uniforms and widget-to-image transform), and the view is refitted exactly when the image size changed |
| Widget.SetHduLosesErrorKind | src/openglwidget.cpp:225-228 | the two agree on every switch and on the restored widget, and differ in the error the caller receives; a 64-bit float unit reaches the caller as a bare exception instead of `PlanCreationError` |
| Widget.SetHduBack | src/openglwidget.cpp:212-230 | when the original unit has a plan whose shader program links, switching to another unit and back restores the original unit and plan, with the uniforms a fresh initialisation of that unit installs |
| Widget.ChangeLevels | src/openglwidget.cpp:232-235 | the widget is the old one with the uniforms passed through `setMinMax` with the new window, so only the uniforms change, and it stays valid |
| Widget.ChangeColorMap | src/openglwidget.cpp:237-244 | the same index changes nothing; another index selects it and sets the uniforms' colour-map size to that map's width |
| Widget.ChangeColorMapIdempotent | src/openglwidget.cpp:237-244 | selecting the same colour map twice is selecting it once, and the uniforms then use its width |
| Widget.ViewChanged | src/openglwidget.cpp:263-266 | the widget is the old one with both transforms passed through `setViewrect` with the new rectangle; nothing else changes |
| Widget.SetRotation | src/openglwidget.cpp:268-283 | an unchanged angle returns the widget as it is; otherwise each transform is the old one with the new angle and expired, so they stay in step; nothing else in the model changes |
| Widget.SetHorizontalFlip | src/openglwidget.cpp:305-314 | an unchanged flag returns the widget as it is; otherwise each transform is the old one with the new horizontal flip and expired; nothing else in the model changes |
| Widget.SetVerticalFlip | src/openglwidget.cpp:316-325 | an unchanged flag returns the widget as it is; otherwise each transform is the old one with the new vertical flip and expired; nothing else in the model changes |
| Widget.ControlsIdempotent | src/openglwidget.cpp:268-325 | setting the same rotation or flip twice is setting it once |
| ShaderUniforms.Base | src/openglshaderunifroms.cpp:8 | the channel base `1 << 8*channel_size` is 1 for no channel bytes and at least 256 otherwise |
| ShaderUniforms.Weights | src/openglshaderunifroms.cpp:10-18 | one weight per channel: the single weight 1 without channel bytes, otherwise a least significant weight of 2^(8*channel_size) - 1 |
| ShaderUniforms.WeightsAreBasePowers | src/openglshaderunifroms.cpp:10-14 | the weights are base^(n-1-j)*(base-1): the last is base-1 and each is base times the next |
| ShaderUniforms.WeightFacts | src/openglshaderunifroms.cpp:10-18 | a constructed layout's weights are the single weight 1 without channel bytes, and base powers otherwise |
| ShaderUniforms.NewUniforms | src/openglshaderunifroms.cpp:3-19 | the constructor keeps channels, channel size, BZERO and BSCALE, fixes base and weights, starts from the initial window and colour-map size, and has not computed coefficients yet |
| ShaderUniforms.Alpha | src/openglshaderunifroms.cpp:36 | alpha is non-zero whenever it is defined |
| ShaderUniforms.AlphaSpansWindow | src/openglshaderunifroms.cpp:36 | alpha times the window width is 1 - 1/N, and alpha is positive for an increasing window and N > 1 |
| ShaderUniforms.ComputeCz | src/openglshaderunifroms.cpp:35-53 | coefficients exist exactly when N, alpha*N and max-min are non-zero, with one c and one z per channel; c is bscale*alpha times the weights, and the offsets weighted by the weights sum to -0.5/(alpha*N) + min - BZERO |
| ShaderUniforms.CoefficientsFollowWeights | src/openglshaderunifroms.cpp:38-50 | c = bscale*alpha*a: the single coefficient bscale*alpha without channel bytes; otherwise the last is bscale*alpha*(base-1) and each is base times the next |
| ShaderUniforms.DigitStep | src/openglshaderunifroms.cpp:44-46 | each peeled channel's offset times base-1 is d minus base times the carried floor, and lies in [0, base) |
| ShaderUniforms.PeelReconstructs | src/openglshaderunifroms.cpp:42-48 | the peeled offsets, weighted by the base-power weights, sum back to d |
| ShaderUniforms.Peel | src/openglshaderunifroms.cpp:42-48 | one offset per channel, and every channel below the top one gets an offset whose channel value z*(base-1) is in [0, base) |
| ShaderUniforms.Offsets | src/openglshaderunifroms.cpp:37-51 | one offset per channel; in both branches the sum of z[i]*a[i] is the offset d; without channel bytes the offset is d itself; every channel below the top one is within one channel's range |
| ShaderUniforms.SetMinMax | src/openglshaderunifroms.cpp:21-26 | an unchanged window keeps the coefficients; a new one stores it and recomputes them; nothing else changes |
| ShaderUniforms.SetColorMapSize | src/openglshaderunifroms.cpp:28-33 | an unchanged size keeps the coefficients; a new one stores it and recomputes them; nothing else changes |
| ShaderUniforms.SettersIdempotentAndUpToDate | src/openglshaderunifroms.cpp:21-33 | each setter applied twice equals applying it once, and the setters keep computed coefficients current |
| ShaderUniforms.SettersComputeCoefficients | src/openglshaderunifroms.cpp:21-53 | after setting a window and a size of which at least one is new, the coefficients are those of the new window and size |
| Transform.NewTransform | src/opengltransform.cpp:21-32 | a new transform is expired, holds the identity matrix, and starts with image size 1x1, unit scales, angle 0, no flips and view (-1,-1,2,2); its unit scales are those of its 1x1 image size (`ScalesFit`) |
| Transform.NewTransformFor | src/opengltransform.cpp:33-38 | the second constructor starts from the defaults (identity matrix marked stale, angle 0, no flips, no widget size) and applies the image size with its aspect scales and the view rectangle |
| Transform.NewWidgetToFitsFor | src/opengltransform.cpp:118-122 | the widget-to-FITS constructor starts from the same defaults, applies the image size with its aspect scales and the view rectangle, and records the widget size |
| Transform.AspectScale | src/opengltransform.cpp:80-81 | `min(1, num/den)`: at most 1 and at most the ratio, and equal to one of them; 1 when the denominator is 0 |
| Transform.SetImageSize | src/opengltransform.cpp:73-84 | the same size returns early; a new size is stored with both aspect scales and expires the matrix |
| Transform.ImageScalesFit | src/opengltransform.cpp:73-84 | for a non-degenerate image, both scales are in (0, 1], the longer side's scale is 1, and scaleX/scaleY is width/height; this holds for a new size, and for a repeated size whenever the scales already fit the current size, as they do from construction on (`RunKeepsScalesFit`) |
| Transform.AspectScalesFit | src/opengltransform.cpp:80-81 | the two `min(1, side/other side)` scales of a non-degenerate image lie in (0, 1], the longer side's is 1, and their ratio is width/height |
| Transform.SetRotation | src/opengltransform.cpp:86-91 | the same angle returns early; a new angle is stored and expires the matrix |
| Transform.SetViewrect | src/opengltransform.cpp:93-98 | the same rectangle returns early; a new one is stored and expires the matrix |
| Transform.SetHorizontalFlip | src/opengltransform.cpp:100-105 | the same flag returns early; a new one is stored and expires the matrix |
| Transform.SetVerticalFlip | src/opengltransform.cpp:107-112 | the same flag returns early; a new one is stored and expires the matrix |
| Transform.SetWidgetSize | src/opengltransform.cpp:155-160 | the same widget size returns early; a new one is stored and expires the matrix |
| Transform.Recompute | src/opengltransform.cpp:48-57 | the rebuilt matrix is fixed by the kind and a snapshot of every parameter, and is symbolically distinct from the not-yet-built placeholder a new transform holds (numerically it may still be the identity) |
| Transform.TransformMatrix | src/opengltransform.cpp:59-63 | the result is fresh and is the matrix of the current parameters; an unexpired transform is returned as it is |
| Transform.TransformMatrixIdempotent | src/opengltransform.cpp:59-63 | asking for the matrix twice is asking once |
| Transform.Border | src/opengltransform.cpp:65-71 | the border rectangle is fixed by the angle, the flips and the aspect scales |
| Transform.BorderIgnoresCache | src/opengltransform.cpp:65-71 | the border depends only on angle, flips and scales, and not on the cached matrix |
| Transform.Step | src/opengltransform.cpp:48-63 | any setter or matrix request keeps the cache consistent: an unexpired transform holds the matrix of its parameters; it also keeps the aspect scales those of the current image size |
| Transform.RunKeepsCacheFresh | src/opengltransform.cpp:48-112 | after any sequence of setters and matrix requests, the matrix returned is that of the current parameters |
| Transform.RunKeepsScalesFit | src/opengltransform.cpp:73-84 | after any sequence of setters and matrix requests, both aspect scales are those `setImageSize` derives from the current image size |
| Transform.ConstructedTransformsStayFresh | src/opengltransform.cpp:21-63 | from construction on, every matrix request returns the matrix of the current parameters |
| Transform.WidgetPixelToViewrect | src/opengltransform.cpp:144-150 | widget pixel x maps to v with v*w = 2x - (w-1) |
| Transform.ViewrectToWidgetPixel | src/opengltransform.cpp:144-150 | the inverse mapping from the view rectangle to widget pixels |
| Transform.WidgetPixelSteps | src/opengltransform.cpp:144-150 | the two maps are mutually inverse; pixel 0 goes to -(w-1)/w and pixel w-1 to (w-1)/w; mirrored pixels map to opposite points |
| MainWindow.SelectImageHdu | src/mainwindow.cpp:53-64 | the primary unit when it holds an image, otherwise the first extension that does; `NoImageInFITS` exactly when no unit holds one |
| MainWindow.InitialWindowSize | src/mainwindow.cpp:67-69 | each side is the image side bounded by two thirds of the screen side, rounded down |
| MainWindow.NewMainWindow | src/mainwindow.cpp:44-69 | an unopenable file is `FileOpenError` with its reason; an opened file without an image is `NoImageInFITS`; otherwise the window shows the primary unit if it holds an image, else the first extension that does, at the initial size |

## Left out

- Header parsing, the paged byte source, block padding and the FITS
  constructors (`include/fits.h:52`, `:174`, `:188-193`). The model starts
  from parsed units.
- Parse-time errors such as `UnexpectedEnd` (`include/fits.h:24-30`), which
  belong to the parser.
- QVariant conversion. It is a parameter `string -> Option<T>`.
- IEEE-754 decoding of `float` and `double` samples, and the rounding to
  `GLfloat`/`float`. Float decoders are a parameter. All arithmetic is on
  `real`, so `static_cast<GLfloat>` and `static_cast<float>` are not rounded.
- The 4x4 matrices, `ortho`, `rotate`, `mapRect` and the rectangle returned
  by `border()`. The matrix and the border are symbolic values of the
  parameters they depend on. Only the widget-pixel step (lines 144-150) is
  modelled numerically.
- `flipViewrect`, the rotation of the view centre in `setRotation`, and
  `resizeEvent`. These are trigonometric view-rectangle geometry.
- Widget.SetRotation: in the code it also moves the view centre (lines
  270-277) and resets the view border. Through the `viewChanged` signal
  (line 94, lines 263-266) that gives both transforms a new view rectangle.
  The model changes only the angle.
- Widget.SetHorizontalFlip: in the code it also mirrors the view centre
  through `flipViewrect` (lines 285-303). Through `viewChanged` that gives
  both transforms a new view rectangle. The model changes only the flag.
- Widget.SetVerticalFlip: in the code it also mirrors the view centre
  through `flipViewrect`. Through `viewChanged` that gives both transforms a
  new view rectangle. The model changes only the flag.
- Transform.SetViewrect: Qt 5 compares `QRectF` values with
  `qFuzzyCompare`, so a rectangle that differs only by rounding noise counts
  as unchanged there. The model compares exactly.
- `setScale` (line 164) and `setBorder` (line 163) of the widget.
- Truncation of the transformed point to a `QPoint` in
  `pixelFromWidgetCoordinate`. The integer position is an input of
  `Widget.PixelAt`.
- Painting and signals: shader sources, textures, `paintGL`, `update()`,
  `makeCurrent`, and every emitted signal.
- Exception class boilerplate (`raise`, `clone`).
- ShaderUniforms.NewUniforms: the C++ computes `1 << (8*channel_size)` in
  `int`, which overflows for `channel_size >= 4`. The model uses the exact
  power 2^(8*channel_size).
- ShaderUniforms.ComputeCz: where the C++ divides by zero it stores
  infinities or NaN. The model has no coefficients there.
- Transform.AspectScale: a zero height makes the C++ compute `w/0` in
  `float`, and `std::min(1, inf)` is 1. The model returns 1 directly.
- The colour-map widths, the texture formats and the data range
  (`hduMinMax`). These are parameters.
- The uniforms' initial window and colour-map size. None of the modelled
  source files sets them (they belong to the uniforms class's
  declaration), so they are parameters.
- Widget.InitializeGLObjects: the code ignores the results of adding the
  shader sources and of `program->bind()` (lines 152-153, 157), so they have
  no effect in the model. `imageTexture().initialize()` (line 159) is taken
  to return: the texture classes are not part of this model, and an
  exception from them would propagate like the two modelled errors.
- Widget.SetHdu: models the intended rethrow of the original error. The code
  as written hands the caller a bare `std::exception` (see "Findings",
  `Widget.SetHduAsWritten`). Exception messages are not modelled.
- `Widget.InitializeGLObjects` requires an image unit. Line 117 calls
  `image_size()`, which dereferences `imageDataUnit()`
  (`include/openglwidget.h:104`) before the plan is chosen. An empty unit
  therefore never reaches the `EmptyDataUnit` branch of lines 140-142.
- `Widget.NewWidget` requires an image unit as well. The constructor (lines
  82-100) does not call `image_size()` itself. The requirement comes from the
  widget invariant `Widget.Valid`, which every later operation relies on.
  The only caller, `src/mainwindow.cpp:53-64`, passes a unit that holds an
  image.
- `src/openglwidget.cpp` is written against a later revision of the FITS
  classes (`AbstractHeaderDataUnit`, `HeaderDataUnit<T>`). The model follows
  the data types of `include/fits.h` and the widget's logic.
- The window title, the scroll area and the menus of the main window.
  These are Qt presentation only.

## Findings

| source | as written | input that shows it | evidently intended | confidence | as-written member | corrected member |
|---|---|---|---|---|---|---|
| src/openglwidget.cpp:225-228 | the handler catches `const std::exception& e` and rethrows with `throw e;`, which throws a copy of the `std::exception` base part only | a unit of 64-bit floats (BITPIX -64): `initializeGLObjects` throws `PlanCreationError`, and the caller of `setHDU` receives a bare `std::exception`, so a handler for `PlanCreationError` never runs | rethrow the original exception (`throw;`), so the caller sees `PlanCreationError` or `ShaderLoadError` | high; not executed | Widget.SetHduAsWritten | Widget.SetHdu |
