/**
 * The application state of src/App.tsx: the handlers that load, reset and
 * process an image, the error message of a failed run, and the choice of
 * URL and file name when the result is downloaded.
 */
module App {
  import opened Wrappers
  import opened ImageProcessor

  // ---------------------------------------------------------------------
  // Download file name: `fileName.replace(/\.[^.]+$/, '-transparent.png')`

  const DownloadSuffix := "-transparent.png"

  /** Position `i` starts the final extension: a dot followed by at least one character, none of them a dot. */
  predicate ExtensionAt(s: string, i: int)
  {
    0 <= i < |s| - 1 && s[i] == '.' && forall j :: i < j < |s| ==> s[j] != '.'
  }

  /** Index of the last dot of `s`, or -1 when there is none. */
  function LastDot(s: string): (r: int)
    ensures -1 <= r < |s|
    ensures r >= 0 ==> s[r] == '.'
    ensures forall j :: r < j < |s| ==> s[j] != '.'
  {
    if s == [] then -1
    else if s[|s| - 1] == '.' then |s| - 1
    else LastDot(s[..|s| - 1])
  }

  /** Only the last dot can start the extension the pattern matches. */
  lemma ExtensionIsLastDot(s: string, i: int)
    requires ExtensionAt(s, i)
    ensures i == LastDot(s)
  {
  }

  /**
   * The name offered for download: a final extension, dot included, is
   * replaced by "-transparent.png"; a name with no dot, or whose last dot
   * is its last character, is kept as it is.
   */
  function DownloadFileName(name: string): (r: string)
    ensures forall i :: ExtensionAt(name, i) ==> r == name[..i] + DownloadSuffix
    ensures (forall i :: !ExtensionAt(name, i)) ==> r == name
  {
    var d := LastDot(name);
    if 0 <= d < |name| - 1 then
      assert ExtensionAt(name, d);
      name[..d] + DownloadSuffix
    else
      assert forall i :: ExtensionAt(name, i) ==> i == d by {
        forall i | ExtensionAt(name, i) ensures i == d {
          ExtensionIsLastDot(name, i);
        }
      }
      name
  }

  /** A rewritten name keeps everything before the last dot and ends in the suffix. */
  lemma DownloadFileNameEndsInSuffix(name: string, i: int)
    requires ExtensionAt(name, i)
    ensures |DownloadFileName(name)| == i + |DownloadSuffix|
    ensures DownloadFileName(name)[i..] == DownloadSuffix
    ensures DownloadFileName(name)[..i] == name[..i]
  {
  }

  /** Only the last extension goes: "a.tar.gz" becomes "a.tar-transparent.png". */
  lemma DownloadFileNameOfDoubleExtension()
    ensures DownloadFileName("a.tar.gz") == "a.tar-transparent.png"
  {
    assert ExtensionAt("a.tar.gz", 5);
    assert "a.tar.gz"[..5] == "a.tar";
  }

  /** A name that is all extension becomes the bare suffix. */
  lemma DownloadFileNameOfDotFile()
    ensures DownloadFileName(".hidden") == "-transparent.png"
  {
    assert ExtensionAt(".hidden", 0);
  }

  /** No dot, or a trailing dot: the name is kept. */
  lemma DownloadFileNameWithoutExtension()
    ensures DownloadFileName("photo") == "photo"
    ensures DownloadFileName("photo.") == "photo."
  {
    assert forall i :: !ExtensionAt("photo", i) by {
      forall i | 0 <= i < 4 ensures "photo"[i] != '.' { }
    }
    assert "photo."[5] == '.';
  }

  // ---------------------------------------------------------------------
  // Download URL: `croppedDataUrl || processedImage`, nothing when falsy

  /** A JavaScript string value that is present and not the empty string. */
  predicate Truthy(s: Option<string>)
  {
    s.Some? && s.value != ""
  }

  /** The URL the anchor gets, or None when the handler returns without a download. */
  function ChooseUrl(cropped: Option<string>, processed: Option<string>): (url: Option<string>)
    ensures url.None? || url.value != ""
    ensures Truthy(cropped) ==> url == cropped
    ensures !Truthy(cropped) && Truthy(processed) ==> url == processed
    ensures url.None? <==> !Truthy(cropped) && !Truthy(processed)
  {
    if Truthy(cropped) then cropped
    else if Truthy(processed) then processed
    else None
  }

  datatype DownloadLink = DownloadLink(href: string, download: string)

  // ---------------------------------------------------------------------
  // Error message of a failed run

  /** What the `catch` clause receives: an `Error` with its message, or any other thrown value. */
  datatype Thrown = ErrorObject(message: string) | OtherValue

  const ErrorPrefix := "Error processing image. Please try a different image or adjust settings."
  const DetailsLabel := " Details: "

  function ErrorMessage(t: Thrown): (m: string)
    ensures ErrorPrefix <= m
    ensures m == ErrorPrefix <==> !(t.ErrorObject? && t.message != "")
  {
    if t.ErrorObject? && t.message != "" then ErrorPrefix + DetailsLabel + t.message else ErrorPrefix
  }

  /** The details of an `Error` with a non-empty message can be read back from the text shown. */
  lemma ErrorMessageKeepsDetails(msg: string)
    requires msg != ""
    ensures ErrorMessage(ErrorObject(msg))[..|ErrorPrefix + DetailsLabel|] == ErrorPrefix + DetailsLabel
    ensures ErrorMessage(ErrorObject(msg))[|ErrorPrefix + DetailsLabel|..] == msg
  {
  }

  /** Two different non-empty messages give two different texts. */
  lemma ErrorMessageInjective(m1: string, m2: string)
    requires m1 != "" && m2 != ""
    requires ErrorMessage(ErrorObject(m1)) == ErrorMessage(ErrorObject(m2))
    ensures m1 == m2
  {
    ErrorMessageKeepsDetails(m1);
    ErrorMessageKeepsDetails(m2);
  }

  // ---------------------------------------------------------------------
  // The component state

  /** The decoded image the uploader hands over. */
  datatype ImageElement = ImageElement(src: string, naturalWidth: nat, naturalHeight: nat)

  const DefaultOptions := ProcessingOptions(true, true, false, 20)

  class AppModel {
    var originalImage: Option<ImageElement>
    var fileName: string
    var processedImage: Option<string>
    var processing: bool
    var error: Option<string>
    var options: ProcessingOptions
    var modalOpen: bool

    constructor ()
      ensures originalImage == None && fileName == "" && processedImage == None
      ensures !processing && error == None && !modalOpen
      ensures options == DefaultOptions
    {
      originalImage := None;
      fileName := "";
      processedImage := None;
      processing := false;
      error := None;
      options := DefaultOptions;
      modalOpen := false;
    }

    /** `open` of the result modal. */
    predicate ModalShown()
      reads this
    {
      modalOpen && Truthy(processedImage)
    }

    /**
     * `imageSrc` of the result modal, passed whether or not the modal is
     * open: the processed image when it is truthy, the empty string otherwise.
     */
    function ModalImageSrc(): (src: string)
      reads this
      ensures src == if Truthy(processedImage) then processedImage.value else ""
      ensures ModalShown() ==> src != "" && Some(src) == processedImage
    {
      if processedImage.Some? then processedImage.value else ""
    }

    /** "Change Image": forget the image, its name, the result and the error. */
    method HandleReset()
      modifies this
      ensures originalImage == None && processedImage == None && fileName == "" && error == None
      ensures options == old(options) && modalOpen == old(modalOpen) && processing == old(processing)
      ensures !ModalShown()
    {
      originalImage := None;
      processedImage := None;
      fileName := "";
      error := None;
    }

    /** A new image from the uploader replaces the old one and clears the result and the error. */
    method HandleImageLoad(image: ImageElement, name: string)
      modifies this
      ensures originalImage == Some(image) && fileName == name
      ensures processedImage == None && error == None
      ensures options == old(options) && modalOpen == old(modalOpen) && processing == old(processing)
      ensures !ModalShown()
    {
      originalImage := Some(image);
      fileName := name;
      processedImage := None;
      error := None;
    }

    /**
     * The synchronous part of `handleProcess`: nothing happens without an
     * image, with the library not loaded or without its handle; otherwise
     * processing starts and the error is cleared. The deferred part is
     * `CompleteProcess`.
     */
    method HandleProcess(loaded: bool, cvPresent: bool) returns (started: bool)
      modifies this
      ensures started <==> old(originalImage).Some? && loaded && cvPresent
      ensures !started ==> processing == old(processing) && error == old(error)
      ensures started ==> processing && error == None
      ensures originalImage == old(originalImage) && fileName == old(fileName)
      ensures processedImage == old(processedImage) && options == old(options) && modalOpen == old(modalOpen)
    {
      if originalImage.None? || !loaded || !cvPresent {
        return false;
      }
      processing := true;
      error := None;
      started := true;
    }

    /**
     * The deferred callback of `handleProcess`, given how `processImage`
     * ended: on success the result is stored and the modal opened, on an
     * exception the error text is set; processing ends either way.
     */
    method CompleteProcess(outcome: Result<string, Thrown>)
      modifies this
      ensures !processing
      ensures outcome.Success? ==> processedImage == Some(outcome.value) && modalOpen && error == old(error)
      ensures outcome.Failure? ==> error == Some(ErrorMessage(outcome.error))
      ensures outcome.Failure? ==> processedImage == old(processedImage) && modalOpen == old(modalOpen)
      ensures outcome.Success? && outcome.value != "" ==> ModalShown()
      ensures originalImage == old(originalImage) && fileName == old(fileName) && options == old(options)
    {
      match outcome {
        case Success(url) =>
          processedImage := Some(url);
          modalOpen := true;
        case Failure(thrown) =>
          error := Some(ErrorMessage(thrown));
      }
      processing := false;
    }

    /** `onClose` of the modal. */
    method CloseModal()
      modifies this
      ensures !modalOpen && !ModalShown()
      ensures originalImage == old(originalImage) && fileName == old(fileName) && processedImage == old(processedImage)
      ensures processing == old(processing) && error == old(error) && options == old(options)
    {
      modalOpen := false;
    }

    /** `handleModalDownload`: the link the handler clicks, if any. */
    method HandleModalDownload(cropped: Option<string>) returns (link: Option<DownloadLink>)
      ensures link.None? <==> !Truthy(cropped) && !Truthy(processedImage)
      ensures link.Some? ==> link.value.href != "" && link.value.download == DownloadFileName(fileName)
      ensures Truthy(cropped) ==> link.Some? && link.value.href == cropped.value
      ensures !Truthy(cropped) && Truthy(processedImage) ==> link.Some? && link.value.href == processedImage.value
    {
      var url := ChooseUrl(cropped, processedImage);
      if url.None? {
        return None;
      }
      var newFileName := DownloadFileName(fileName);
      link := Some(DownloadLink(url.value, newFileName));
    }
  }
}
