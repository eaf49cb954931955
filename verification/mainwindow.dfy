/**
 * The main window's start-up: which header-data unit of an opened file is
 * shown, and the window's initial size. Opening the file, the scroll area,
 * menus and dialogs are outside the model; whether the file could be opened
 * is a parameter.
 */
module MainWindow {
  import opened Wrappers
  import opened Geometry
  import opened Fits

  /** `FileOpenError` carries the reason the file could not be opened. */
  datatype MainWindowError = FileOpenError(reason: string) | NoImageInFITS

  /** The unit holds an image (`imageDataUnit()` is not null). */
  predicate HasImage(hdu: HeaderDataUnit)
  {
    ImageDataUnit(hdu.data).Some?
  }

  /** No extension before index k holds an image. */
  predicate NoImageBefore(extensions: seq<HeaderDataUnit>, k: nat)
    requires k <= |extensions|
  {
    forall j :: 0 <= j < k ==> !HasImage(extensions[j])
  }

  /**
   * The unit the window shows: the primary unit when it holds an image,
   * otherwise the first extension that does; no image at all is an error.
   */
  method SelectImageHdu(f: FitsFile) returns (r: Result<HeaderDataUnit, MainWindowError>)
    ensures HasImage(f.primary) ==> r == Success(f.primary)
    ensures r.Success? ==> HasImage(r.value)
    ensures r.Success? && r.value != f.primary ==>
      !HasImage(f.primary) &&
      exists k :: 0 <= k < |f.extensions| && r.value == f.extensions[k] && NoImageBefore(f.extensions, k)
    ensures r.Failure? <==> !HasImage(f.primary) && NoImageBefore(f.extensions, |f.extensions|)
    ensures r.Failure? ==> r.error == NoImageInFITS
  {
    var hdu := f.primary;
    var i := 0;
    while i < |f.extensions| && !HasImage(hdu)
      invariant 0 <= i <= |f.extensions|
      invariant i == 0 ==> hdu == f.primary
      invariant i > 0 ==> !HasImage(f.primary) && hdu == f.extensions[i - 1]
      invariant i > 0 ==> NoImageBefore(f.extensions, i - 1)
    {
      hdu := f.extensions[i];
      i := i + 1;
    }
    if !HasImage(hdu) {
      return Failure(NoImageInFITS);
    }
    return Success(hdu);
  }

  /**
   * The initial window size: the image size bounded by two thirds of the
   * screen in each direction, with C++ integer division.
   */
  function InitialWindowSize(imageSize: Size, screen: Size): (r: Size)
    ensures r.width <= imageSize.width && 3 * r.width <= 2 * screen.width
    ensures r.height <= imageSize.height && 3 * r.height <= 2 * screen.height
    ensures r.width == imageSize.width || 3 * (r.width + 1) > 2 * screen.width
    ensures r.height == imageSize.height || 3 * (r.height + 1) > 2 * screen.height
  {
    BoundedTo(imageSize, Size(screen.width * 2 / 3, screen.height * 2 / 3))
  }

  /** What the constructor leaves behind: the unit shown and the window size. */
  datatype Window = Window(hdu: HeaderDataUnit, size: Size)

  /**
   * The constructor: a file that could not be opened is a FileOpenError
   * with its reason; a file without an image is NoImageInFITS; otherwise
   * the window shows the selected unit at the initial size.
   */
  method NewMainWindow(file: Result<FitsFile, string>, screen: Size) returns (r: Result<Window, MainWindowError>)
    ensures file.Failure? ==> r == Failure(FileOpenError(file.error))
    ensures file.Success? && HasImage(file.value.primary) ==> r.Success? && r.value.hdu == file.value.primary
    ensures file.Success? ==>
      (r.Failure? <==> !HasImage(file.value.primary) && NoImageBefore(file.value.extensions, |file.value.extensions|))
    ensures file.Success? && r.Failure? ==> r.error == NoImageInFITS
    ensures file.Success? && r.Success? && !HasImage(file.value.primary) ==>
      exists k :: 0 <= k < |file.value.extensions| && r.value.hdu == file.value.extensions[k]
                  && NoImageBefore(file.value.extensions, k)
    ensures r.Success? ==> HasImage(r.value.hdu)
    ensures r.Success? ==>
      r.value.size == InitialWindowSize(ImageSize(ImageDataUnit(r.value.hdu.data).value), screen)
  {
    if file.Failure? {
      return Failure(FileOpenError(file.error));
    }
    var selected := SelectImageHdu(file.value);
    if selected.Failure? {
      return Failure(selected.error);
    }
    var hdu := selected.value;
    var image := ImageDataUnit(hdu.data).value;
    return Success(Window(hdu, InitialWindowSize(ImageSize(image), screen)));
  }
}
