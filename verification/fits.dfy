/**
 * The FITS container as the viewer sees it after parsing: header units
 * (keyword -> string value), the seven-way closed hierarchy of data units,
 * and the BITPIX dispatch of section 4.4.1.1 of the FITS Standard
 * (version 4.0, Table 8).
 */
module Fits {
  import opened Wrappers
  import opened Geometry
  import opened BigEndian

  /** The FITS exception hierarchy that header access can raise. */
  datatype FitsError =
    | WrongHeaderValue(key: string, value: string)
    | UnsupportedBitpix(bitpix: string)

  /** `UnsupportedBitpix` derives from `WrongHeaderValue`: a catch of the
      base class catches both. */
  predicate IsWrongHeaderValue(e: FitsError)
  {
    e.WrongHeaderValue? || e.UnsupportedBitpix?
  }

  /** The header value a `WrongHeaderValue`-kind error complains about. */
  function OffendingValue(e: FitsError): string
    requires IsWrongHeaderValue(e)
  {
    match e
    case WrongHeaderValue(_, value) => value
    case UnsupportedBitpix(bitpix) => bitpix
  }

  /** What a header lookup can throw: `std::out_of_range` from
      `std::map::at` for a missing key, or a FITS exception. */
  datatype LookupError = OutOfRange(key: string) | Raised(error: FitsError)

  // ---------------------------------------------------------------------
  // Header unit

  /** One parsed header: keyword -> raw string value. */
  datatype HeaderUnit = HeaderUnit(headers: map<string, string>)

  /** `header(key)`: the stored value; a missing key throws. */
  function Header(h: HeaderUnit, key: string): (r: Result<string, LookupError>)
    ensures r.Success? <==> key in h.headers
    ensures r.Success? ==> r.value == h.headers[key]
    ensures r.Failure? ==> r.error == OutOfRange(key)
  {
    if key in h.headers then Success(h.headers[key]) else Failure(OutOfRange(key))
  }

  /** `header(key, def)`: the stored value, or `def` for a missing key. */
  function HeaderOr(h: HeaderUnit, key: string, def: string): (r: string)
    ensures key in h.headers ==> r == h.headers[key]
    ensures key !in h.headers ==> r == def
  {
    if key in h.headers then h.headers[key] else def
  }

  /** `header_as<T>(key)`: the stored value converted by `convert` (the
      QVariant conversion, a partial function); a missing key throws
      `out_of_range`, an unconvertible value throws `WrongHeaderValue`. */
  function HeaderAs<T>(h: HeaderUnit, key: string, convert: string -> Option<T>): (r: Result<T, LookupError>)
    ensures key !in h.headers ==> r == Failure(OutOfRange(key))
    ensures key in h.headers && convert(h.headers[key]).None? ==>
              r == Failure(Raised(WrongHeaderValue(key, h.headers[key])))
    ensures r.Success? <==> key in h.headers && convert(h.headers[key]).Some?
    ensures r.Success? ==> r.value == convert(h.headers[key]).value
  {
    match Header(h, key)
    case Failure(e) => Failure(e)
    case Success(v) =>
      match convert(v)
      case None => Failure(Raised(WrongHeaderValue(key, v)))
      case Some(x) => Success(x)
  }

  /** `header_as<T>(key, def)`: never throws; `def` when the key is missing
      or its value does not convert. */
  function HeaderAsOr<T>(h: HeaderUnit, key: string, def: T, convert: string -> Option<T>): (r: T)
    ensures key !in h.headers ==> r == def
    ensures key in h.headers && convert(h.headers[key]).None? ==> r == def
    ensures key in h.headers && convert(h.headers[key]).Some? ==> r == convert(h.headers[key]).value
  {
    if key in h.headers && convert(h.headers[key]).Some? then convert(h.headers[key]).value else def
  }

  /** The defaulting accessors are the throwing ones with every failure
      replaced by the default. */
  lemma DefaultingAccessorsAgree<T>(h: HeaderUnit, key: string, def: string, tdef: T, convert: string -> Option<T>)
    ensures HeaderOr(h, key, def) == Header(h, key).GetOr(def)
    ensures HeaderAsOr(h, key, tdef, convert) == HeaderAs(h, key, convert).GetOr(tdef)
  {
  }

  /** BSCALE of section 4.4.2.5 of the FITS Standard: defaults to 1. */
  function Bscale(h: HeaderUnit, toDouble: string -> Option<real>): (r: real)
    ensures "BSCALE" !in h.headers ==> r == 1.0
    ensures "BSCALE" in h.headers && toDouble(h.headers["BSCALE"]).Some? ==> r == toDouble(h.headers["BSCALE"]).value
    ensures "BSCALE" in h.headers && toDouble(h.headers["BSCALE"]).None? ==> r == 1.0
  {
    HeaderAsOr(h, "BSCALE", 1.0, toDouble)
  }

  /** BZERO of section 4.4.2.5 of the FITS Standard: defaults to 0. */
  function Bzero(h: HeaderUnit, toDouble: string -> Option<real>): (r: real)
    ensures "BZERO" !in h.headers ==> r == 0.0
    ensures "BZERO" in h.headers && toDouble(h.headers["BZERO"]).Some? ==> r == toDouble(h.headers["BZERO"]).value
    ensures "BZERO" in h.headers && toDouble(h.headers["BZERO"]).None? ==> r == 0.0
  {
    HeaderAsOr(h, "BZERO", 0.0, toDouble)
  }

  // ---------------------------------------------------------------------
  // Element types and BITPIX

  /** The six C++ element types a data unit may hold. */
  datatype ElementType = U8 | I16 | I32 | I64 | F32 | F64

  /** `sizeof(T)` in bytes. */
  function ElementSize(t: ElementType): nat
  {
    match t
    case U8 => 1
    case I16 => 2
    case I32 => 4
    case I64 => 8
    case F32 => 4
    case F64 => 8
  }

  /** The BITPIX value of Table 8 of the FITS Standard for each type. */
  function BitpixValue(t: ElementType): int
  {
    match t
    case U8 => 8
    case I16 => 16
    case I32 => 32
    case I64 => 64
    case F32 => -32
    case F64 => -64
  }

  /** The header spelling of each accepted BITPIX value. */
  function BitpixString(t: ElementType): string
  {
    match t
    case U8 => "8"
    case I16 => "16"
    case I32 => "32"
    case I64 => "64"
    case F32 => "-32"
    case F64 => "-64"
  }

  /** `bitpixToType`: the element type selected by a BITPIX header string. */
  function BitpixToType(bitpix: string): (r: Result<ElementType, FitsError>)
    ensures r.Success? ==> BitpixString(r.value) == bitpix
    ensures r.Failure? ==> r.error == UnsupportedBitpix(bitpix)
    ensures r.Failure? ==> forall t: ElementType :: BitpixString(t) != bitpix
  {
    if bitpix == "8" then Success(U8)
    else if bitpix == "16" then Success(I16)
    else if bitpix == "32" then Success(I32)
    else if bitpix == "64" then Success(I64)
    else if bitpix == "-32" then Success(F32)
    else if bitpix == "-64" then Success(F64)
    else Failure(UnsupportedBitpix(bitpix))
  }

  /** Every element type is reached from exactly its own BITPIX string. */
  lemma BitpixRoundTrip(t: ElementType)
    ensures BitpixToType(BitpixString(t)) == Success(t)
  {
  }

  /** An accepted code's element size is |BITPIX| / 8. */
  lemma ElementSizeMatchesBitpix(bitpix: string)
    requires BitpixToType(bitpix).Success?
    ensures var t := BitpixToType(bitpix).value;
            ElementSize(t) * 8 == (if BitpixValue(t) < 0 then -BitpixValue(t) else BitpixValue(t))
  {
  }

  /** A rejected BITPIX is caught as a `WrongHeaderValue` naming the string. */
  lemma UnsupportedBitpixIsWrongHeaderValue(bitpix: string)
    requires BitpixToType(bitpix).Failure?
    ensures IsWrongHeaderValue(BitpixToType(bitpix).error)
    ensures OffendingValue(BitpixToType(bitpix).error) == bitpix
  {
  }

  // ---------------------------------------------------------------------
  // Data units

  /** The bytes of an image data unit and its declared dimensions. */
  datatype Image = Image(height: nat, width: nat, raw: seq<byte>)

  /** The closed hierarchy: `EmptyDataUnit` and the six `DataUnit<T>`. */
  datatype DataUnit =
    | EmptyDataUnit
    | DataUnitU8(image: Image)
    | DataUnitI16(image: Image)
    | DataUnitI32(image: Image)
    | DataUnitI64(image: Image)
    | DataUnitF32(image: Image)
    | DataUnitF64(image: Image)

  /** The `T` of a `DataUnit<T>`; none for the empty unit. */
  function ElementTypeOf(d: DataUnit): (r: Option<ElementType>)
    ensures r.None? <==> d.EmptyDataUnit?
  {
    match d
    case EmptyDataUnit => None
    case DataUnitU8(_) => Some(U8)
    case DataUnitI16(_) => Some(I16)
    case DataUnitI32(_) => Some(I32)
    case DataUnitI64(_) => Some(I64)
    case DataUnitF32(_) => Some(F32)
    case DataUnitF64(_) => Some(F64)
  }

  /** `DataUnit<T>` for the `T` that `t` names: the construction that
      `bitpixToType`'s callback performs. */
  function MakeDataUnit(t: ElementType, image: Image): (d: DataUnit)
    ensures ElementTypeOf(d) == Some(t)
    ensures !d.EmptyDataUnit? && d.image == image
  {
    match t
    case U8 => DataUnitU8(image)
    case I16 => DataUnitI16(image)
    case I32 => DataUnitI32(image)
    case I64 => DataUnitI64(image)
    case F32 => DataUnitF32(image)
    case F64 => DataUnitF64(image)
  }

  /** The six typed variants correspond one to one with the element types. */
  lemma TypedVariantsAreElementTypes(d: DataUnit)
    requires !d.EmptyDataUnit?
    ensures MakeDataUnit(ElementTypeOf(d).value, d.image) == d
  {
  }

  /** A data unit as the BITPIX code and the declared dimensions create it:
      the stored byte count is `sizeof(T) * height * width`. */
  predicate WellFormed(d: DataUnit)
  {
    match ElementTypeOf(d)
    case None => true
    case Some(t) => |d.image.raw| == ElementSize(t) * d.image.height * d.image.width
  }

  /** `imageDataUnit()`: the `dynamic_cast` to `ImageDataUnit`. */
  function ImageDataUnit(d: DataUnit): (r: Option<Image>)
    ensures r.Some? <==> ElementTypeOf(d).Some?
    ensures r.Some? ==> r.value == d.image
  {
    if d.EmptyDataUnit? then None else Some(d.image)
  }

  /** `ImageDataUnit::size()`: (width, height). */
  function ImageSize(image: Image): (s: Size)
    ensures s.width == image.width && s.height == image.height
  {
    Size(image.width, image.height)
  }

  /** `DataUnit<T>::length()`: the number of stored elements. */
  function Length(d: DataUnit): (n: nat)
    requires !d.EmptyDataUnit?
    ensures WellFormed(d) ==> n == d.image.height * d.image.width
  {
    var size := ElementSize(ElementTypeOf(d).value);
    var cells := d.image.height * d.image.width;
    if WellFormed(d) then
      assert |d.image.raw| == size * cells;
      DivExact(cells, size);
      |d.image.raw| / size
    else |d.image.raw| / size
  }

  lemma DivExact(cells: nat, size: nat)
    requires size > 0
    ensures (size * cells) / size == cells
  {
    DivModUnique(size * cells, size, cells, 0);
  }

  /** The handler set of a visitor: one result for the empty unit and one
      function per typed variant. */
  datatype Visitor<R> = Visitor(
    onEmpty: R,
    onU8: Image -> R,
    onI16: Image -> R,
    onI32: Image -> R,
    onI64: Image -> R,
    onF32: Image -> R,
    onF64: Image -> R)

  /** `apply`: double dispatch of a data unit to the handler of its variant.
      The empty unit goes to `onEmpty` and every typed unit to the one
      handler of its element type, called on its image. */
  function Apply<R>(d: DataUnit, v: Visitor<R>): (r: R)
    ensures d.EmptyDataUnit? ==> r == v.onEmpty
    ensures !d.EmptyDataUnit? ==> r == HandlerFor(v, ElementTypeOf(d).value)(d.image)
  {
    match d
    case EmptyDataUnit => v.onEmpty
    case DataUnitU8(image) => v.onU8(image)
    case DataUnitI16(image) => v.onI16(image)
    case DataUnitI32(image) => v.onI32(image)
    case DataUnitI64(image) => v.onI64(image)
    case DataUnitF32(image) => v.onF32(image)
    case DataUnitF64(image) => v.onF64(image)
  }

  /** The handler a visitor holds for element type `t`. */
  function HandlerFor<R>(v: Visitor<R>, t: ElementType): Image -> R
  {
    match t
    case U8 => v.onU8
    case I16 => v.onI16
    case I32 => v.onI32
    case I64 => v.onI64
    case F32 => v.onF32
    case F64 => v.onF64
  }

  // ---------------------------------------------------------------------
  // Header-data units and the file

  /** A header unit paired with its data unit. */
  datatype HeaderDataUnit = HeaderDataUnit(header: HeaderUnit, data: DataUnit)

  /** A parsed file: the primary unit, then the extensions in file order. */
  datatype FitsFile = FitsFile(primary: HeaderDataUnit, extensions: seq<HeaderDataUnit>)
}
