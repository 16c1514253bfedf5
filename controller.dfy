/**
 * The upload page's controller (static/js/script.js): the selected file, the
 * drop zone, the submit button and the result and error areas.
 *
 * Each DOM element the script touches is one field of `UploadController`, and
 * each event listener is a method that updates those fields as the script
 * does. The `fetch` call itself is not modelled: a submission is split into
 * `SubmitStart`, up to the request, and `SubmitComplete`, which receives how
 * the request ended.
 */
module Controller {
  import opened Wrappers

  /** A `File` from the picker or a drop: its name and its declared media type (`file.type`). */
  datatype File = File(name: string, mediaType: string)

  /** How the `/upload` request ended. */
  datatype Completion =
      /** A response arrived and its body parsed as JSON; `latex` and `error` are its fields. */
    | Responded(ok: bool, latex: Option<string>, error: Option<string>)
      /** `fetch` rejected, or `response.json()` threw. */
    | TransportFailure

  /** The `relatedTarget` of a `dragleave` event. */
  datatype RelatedTarget = NoTarget | InsideZone | OutsideZone

  /** What the page shows once a request has ended. */
  datatype Display = ShowCode(code: string) | ShowMessage(message: string)

  /** Everything the controller displays or holds, as one value. */
  datatype Ui = Ui(
    currentFile: Option<File>,
    errorVisible: bool,
    errorText: string,
    resultVisible: bool,
    latexValue: string,
    previewVisible: bool,
    submitDisabled: bool,
    buttonLabel: string,
    loaderVisible: bool,
    dragOver: bool)

  const LabelIdle := "LaTeXify"
  const LabelBusy := "Converting..."
  const InvalidFileMessage := "Please select a valid image file."
  const NoFileMessage := "Please select or drop an image file first."
  const DropFailedMessage := "Could not process the dropped file."
  const UnknownErrorMessage := "An unknown error occurred during conversion."
  const ConnectionFailedMessage := "Failed to connect to the server. Please try again later."

  /** `file.type.startsWith('image/')`. */
  predicate IsImageType(mediaType: string) {
    "image/" <= mediaType
  }

  /** `file && file.type.startsWith('image/')`: the selections the controller accepts. */
  predicate Accepts(file: Option<File>) {
    file.Some? && IsImageType(file.value.mediaType)
  }

  /** JavaScript truthiness of an optional string field of the JSON body. */
  predicate Truthy(field: Option<string>) {
    field.Some? && field.value != ""
  }

  /**
   * The submit handler's verdict on a finished request:
   * `response.ok && data.latex` shows the code, otherwise
   * `data.error || 'An unknown error…'`; a failed request or an unreadable
   * body shows the connection message.
   */
  function Verdict(c: Completion): (d: Display)
    ensures d.ShowCode? <==> c.Responded? && c.ok && Truthy(c.latex)
    ensures d.ShowCode? ==> d.code == c.latex.value && d.code != ""
    ensures d.ShowMessage? ==> d.message != ""
    ensures c.TransportFailure? ==> d == ShowMessage(ConnectionFailedMessage)
  {
    match c
    case Responded(ok, latex, error) =>
      if ok && Truthy(latex) then ShowCode(latex.value)
      else if Truthy(error) then ShowMessage(error.value)
      else ShowMessage(UnknownErrorMessage)
    case TransportFailure => ShowMessage(ConnectionFailedMessage)
  }

  /** A failed conversion shows the server's `error` when it has one, else the fixed fallback. */
  lemma VerdictReportsServerError(c: Completion)
    requires c.Responded? && !(c.ok && Truthy(c.latex))
    ensures Truthy(c.error) ==> Verdict(c) == ShowMessage(c.error.value)
    ensures !Truthy(c.error) ==> Verdict(c) == ShowMessage(UnknownErrorMessage)
  {
  }

  /**
   * What every handler keeps true: the result and the error are never shown
   * together, a shown area has something in it, the button's three busy
   * signals agree, and the preview is shown exactly while a file is held.
   */
  predicate Consistent(u: Ui) {
    && !(u.errorVisible && u.resultVisible)
    && (u.errorVisible ==> u.errorText != "")
    && (u.resultVisible ==> u.latexValue != "")
    && (u.submitDisabled <==> u.loaderVisible)
    && u.buttonLabel == (if u.submitDisabled then LabelBusy else LabelIdle)
    && (u.previewVisible <==> u.currentFile.Some?)
  }

  class UploadController {
    var currentFile: Option<File>
    var errorVisible: bool
    var errorText: string
    var resultVisible: bool
    var latexValue: string
    var previewVisible: bool
    var submitDisabled: bool
    var buttonLabel: string
    var loaderVisible: bool
    var dragOver: bool

    /** The controller's state as one value. */
    function View(): Ui
      reads this
    {
      Ui(currentFile, errorVisible, errorText, resultVisible, latexValue,
         previewVisible, submitDisabled, buttonLabel, loaderVisible, dragOver)
    }

    ghost predicate Valid()
      reads this
    {
      Consistent(View())
    }

    /** The page as loaded: nothing selected, nothing shown, the button ready. */
    constructor ()
      ensures Valid()
      ensures View() == Ui(None, false, "", false, "", false, false, LabelIdle, false, false)
    {
      currentFile := None;
      errorVisible, errorText := false, "";
      resultVisible, latexValue := false, "";
      previewVisible := false;
      submitDisabled, buttonLabel, loaderVisible := false, LabelIdle, false;
      dragOver := false;
    }

    /** `showLoading`: the button goes busy and both areas are hidden. */
    method ShowLoading()
      requires Valid()
      modifies this
      ensures Valid()
      ensures View() == old(View()).(submitDisabled := true, buttonLabel := LabelBusy,
        loaderVisible := true, resultVisible := false, errorVisible := false)
    {
      buttonLabel := LabelBusy;
      loaderVisible := true;
      submitDisabled := true;
      resultVisible := false;
      errorVisible := false;
    }

    /** `hideLoading`: the button is ready again. */
    method HideLoading()
      requires Valid()
      modifies this
      ensures Valid()
      ensures View() == old(View()).(submitDisabled := false, buttonLabel := LabelIdle,
        loaderVisible := false)
    {
      buttonLabel := LabelIdle;
      loaderVisible := false;
      submitDisabled := false;
    }

    /** `showError`: the message is shown and the result hidden. */
    method ShowError(message: string)
      requires Valid() && message != ""
      modifies this
      ensures Valid()
      ensures View() == old(View()).(errorText := message, errorVisible := true,
        resultVisible := false)
    {
      errorText := message;
      errorVisible := true;
      resultVisible := false;
    }

    /** `showResult`: the code is shown and the error hidden. */
    method ShowResult(code: string)
      requires Valid() && code != ""
      modifies this
      ensures Valid()
      ensures View() == old(View()).(latexValue := code, resultVisible := true,
        errorVisible := false)
    {
      latexValue := code;
      resultVisible := true;
      errorVisible := false;
    }

    /**
     * `handleFileSelect`: an image replaces the held file, shows its preview
     * and clears the previous result and error; anything else drops the held
     * file, hides the preview and shows the invalid-file message.
     */
    method HandleFileSelect(file: Option<File>)
      requires Valid()
      modifies this
      ensures Valid()
      ensures Accepts(file) ==> View() == old(View()).(currentFile := file,
        previewVisible := true, resultVisible := false, errorVisible := false, latexValue := "")
      ensures !Accepts(file) ==> View() == old(View()).(currentFile := None,
        previewVisible := false, errorText := InvalidFileMessage, errorVisible := true,
        resultVisible := false)
    {
      if Accepts(file) {
        currentFile := file;
        previewVisible := true;
        resultVisible := false;
        errorVisible := false;
        latexValue := "";
      } else {
        ShowError(InvalidFileMessage);
        currentFile := None;
        previewVisible := false;
      }
    }

    /** The file input's `change` listener: the first chosen file, if any, is selected. */
    method OnInputChange(files: seq<File>)
      requires Valid()
      modifies this
      ensures Valid()
      ensures files == [] ==> View() == old(View())
      ensures files != [] && IsImageType(files[0].mediaType) ==> View() == old(View()).(
        currentFile := Some(files[0]), previewVisible := true, resultVisible := false,
        errorVisible := false, latexValue := "")
      ensures files != [] && !IsImageType(files[0].mediaType) ==> View() == old(View()).(
        currentFile := None, previewVisible := false, errorText := InvalidFileMessage,
        errorVisible := true, resultVisible := false)
    {
      if files != [] {
        HandleFileSelect(Some(files[0]));
      }
    }

    /** `dragenter`: the drop zone is highlighted. */
    method OnDragEnter()
      requires Valid()
      modifies this
      ensures Valid()
      ensures View() == old(View()).(dragOver := true)
    {
      dragOver := true;
    }

    /** `dragover`: the drop zone stays highlighted. */
    method OnDragOver()
      requires Valid()
      modifies this
      ensures Valid()
      ensures View() == old(View()).(dragOver := true)
    {
      dragOver := true;
    }

    /** `dragleave`: the highlight goes only when the pointer moved to an element outside the zone. */
    method OnDragLeave(relatedTarget: RelatedTarget)
      requires Valid()
      modifies this
      ensures Valid()
      ensures View() == old(View()).(dragOver := old(dragOver) && relatedTarget != OutsideZone)
    {
      if relatedTarget != NoTarget && relatedTarget != InsideZone {
        dragOver := false;
      }
    }

    /**
     * `drop`: the highlight goes; the first dropped file takes the same path
     * as a picked one, and a drop without files shows the drop failure.
     */
    method OnDrop(files: seq<File>)
      requires Valid()
      modifies this
      ensures Valid()
      ensures !dragOver
      ensures files == [] ==> View() == old(View()).(dragOver := false,
        errorText := DropFailedMessage, errorVisible := true, resultVisible := false)
      ensures files != [] && IsImageType(files[0].mediaType) ==> View() == old(View()).(
        dragOver := false, currentFile := Some(files[0]), previewVisible := true,
        resultVisible := false, errorVisible := false, latexValue := "")
      ensures files != [] && !IsImageType(files[0].mediaType) ==> View() == old(View()).(
        dragOver := false, currentFile := None, previewVisible := false,
        errorText := InvalidFileMessage, errorVisible := true, resultVisible := false)
    {
      dragOver := false;
      if files != [] {
        HandleFileSelect(Some(files[0]));
      } else {
        ShowError(DropFailedMessage);
      }
    }

    /**
     * The submit listener up to the request: without a held file it shows
     * the no-file message and sends nothing; otherwise the button goes busy
     * and the held file is what the request carries.
     */
    method SubmitStart() returns (sent: Option<File>)
      requires Valid()
      modifies this
      ensures Valid()
      ensures sent == old(currentFile)
      ensures sent.None? ==> View() == old(View()).(errorText := NoFileMessage,
        errorVisible := true, resultVisible := false)
      ensures sent.Some? ==> View() == old(View()).(submitDisabled := true,
        buttonLabel := LabelBusy, loaderVisible := true, resultVisible := false,
        errorVisible := false)
    {
      if currentFile.None? {
        ShowError(NoFileMessage);
        return None;
      }
      ShowLoading();
      sent := currentFile;
    }

    /**
     * The submit listener after the request: the button is made ready first,
     * then the verdict is shown, the code in the result area or a message in
     * the error area.
     */
    method SubmitComplete(c: Completion)
      requires Valid()
      modifies this
      ensures Valid()
      ensures !submitDisabled && buttonLabel == LabelIdle
      ensures Verdict(c).ShowCode? ==> View() == old(View()).(submitDisabled := false,
        buttonLabel := LabelIdle, loaderVisible := false,
        latexValue := Verdict(c).code, resultVisible := true, errorVisible := false)
      ensures Verdict(c).ShowMessage? ==> View() == old(View()).(submitDisabled := false,
        buttonLabel := LabelIdle, loaderVisible := false,
        errorText := Verdict(c).message, errorVisible := true, resultVisible := false)
    {
      HideLoading();
      match Verdict(c)
      case ShowCode(code) => ShowResult(code);
      case ShowMessage(message) => ShowError(message);
    }
  }
}
