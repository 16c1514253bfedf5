# LaTeXify: upload endpoint and upload page, modelled in Dafny

LaTeXify turns a picture of text or formulas into LaTeX source. The browser
page (`static/js/script.js`) lets the user pick or drop an image and posts it
to the server's `/upload` endpoint (`app.py`, `upload_image`). The server asks
a vision model for LaTeX and cuts the code out of the reply. The page then
shows either the code or an error.

This project models both halves:

- `extraction.dfy` (module `Extraction`): the server's extraction step. It is a
  scanner for the one regular expression ```` ```(?:latex)?\n?(.*?)\n?``` ````
  (DOTALL, IGNORECASE). The scanner tries the alternatives in the order a
  backtracking engine does: the leftmost opening fence, then the `latex` tag
  taken before skipped, then the newline taken before skipped, then a lazy
  body. `Strip` models Python's `str.strip()`. The lemmas state where the
  match lies (`IsLeftmostMatch`), that the scanner finds exactly that match,
  and that the extracted code is stripped, is a piece of the reply, holds no
  triple backtick, and is a fixed point of the extraction.
- `upload.dfy` (module `Upload`): `upload_image` as a function from an abstract
  request to a `(status, body)` pair. The request says whether it has an
  `image` field, gives the filename, and gives what decoding the image and
  calling the model came to. The fixed status codes and messages are the
  source's own.
- `controller.dfy` (module `Controller`): the page's controller as a class. Its
  fields stand for the DOM state the script changes: the held file, the error
  and result areas, the preview, the submit button and its label and loader,
  and the drop-zone highlight. Each event listener is a method. The submit
  listener is split at the network request into `SubmitStart` and
  `SubmitComplete`. Every method keeps `Consistent`, which says that the result
  and the error are never shown together. Every method also states its whole
  new state.
- `interaction.dfy` (module `Interaction`): the server's response as the page
  receives it. The page shows code exactly when the server answered 200, and
  it shows the server's own message otherwise.
- `wrappers.dfy` (module `Wrappers`): `Option`, standing for Python's `None`
  and JavaScript's `null`.

A pending request does not keep a held file: an invalid selection made while a
request is pending clears `currentFile` while the button stays disabled, so
`Consistent` does not claim that a busy button implies a held file.

## Model

| member | source | states |
|---|---|---|
| `Extraction.SkipLeading` | app.py:99 | the left scan of `str.strip()` stops at the first non-whitespace character (or the end), having passed only whitespace |
| `Extraction.SkipTrailing` | app.py:99 | the right scan of `str.strip()` stops after the last non-whitespace character (or at the left scan's stop), having passed only whitespace |
| `Extraction.Strip` | app.py:104 | the result is stripped and sits at some offset of the input with only whitespace before and after it, as `str.strip()` promises |
| `Extraction.StripOfStripped` | app.py:99 | stripping a text that neither starts nor ends with whitespace returns it unchanged |
| `Extraction.StripIsInfix` | app.py:104 | the stripped text is a piece of the input, and it has no opening and closing fence pair when the input has none |
| `Extraction.CloseFrom` | app.py:97 | the lazy body followed by `\n?```` ends at the first position where that tail matches; it finds none exactly when no triple backtick follows |
| `Extraction.MatchAt` | app.py:97 | the pattern matches at `i` exactly when a fence starts at `i` and another starts at `i+3` or later; group 1 starts after the longest tag/newline prefix that still leaves a closing fence, and ends at the first place the tail matches |
| `Extraction.SearchFrom` | app.py:97 | `re.search` from a position: the match is at the leftmost fence from there, and there is none exactly when no fence has a later fence at least three characters on |
| `Extraction.Locate` | app.py:97-98 | no match exactly when the reply has no opening fence followed by a closing fence; a match satisfies `IsLeftmostMatch` |
| `Extraction.LocateFindsLeftmostMatch` | app.py:97 | any match satisfying the declarative `IsLeftmostMatch` is the one the scanner returns, so the leftmost match is unique |
| `Extraction.GroupHasNoFence` | app.py:97 | group 1 of the leftmost match holds no triple backtick, because the body quantifier is lazy |
| `Extraction.StrippedGroup` | app.py:97-99 | stripped group 1 is a piece of the reply and holds no triple backtick |
| `Extraction.Extract` | app.py:93-105 | the code is stripped and a piece of the reply; with no fence pair it is the stripped reply; after a fenced match it holds no triple backtick; it never has a fence pair |
| `Extraction.ExtractFencedBlock` | app.py:97-99 | for any match satisfying `IsLeftmostMatch`, the code is that match's group 1, stripped |
| `Extraction.ExtractPlainText` | app.py:101-104 | a stripped reply without a fenced block is returned unchanged |
| `Extraction.ExtractIdempotent` | app.py:93-105 | extracting from the extracted code gives the same code |
| `Upload.BlockedMessage` | app.py:90 | the safety-filter message is the fixed opening text, then the reason exactly, then the fixed closing text |
| `Upload.RespondWithCode` | app.py:94-117 | status 200 exactly when the reply is non-empty and its extracted code is non-empty, and then the body is that code; otherwise status 500 with the fixed extraction-failure message |
| `Upload.HandleUpload` | app.py:50-131 | a request without `image` gets 400 "No image file provided" before the filename is looked at; an empty filename gets 400 "No image selected"; a valid request with a readable reply gets exactly the extraction step's response; every status is 200, 400 or 500; the body is code exactly when the status is 200 |
| `Upload.SuccessIffCodeExtracted` | app.py:94-117 | success exactly when the request is valid, the reply text is readable and its extracted code is non-empty, and the body is then that code; a valid request whose readable reply extracts to empty code gets 500 with the extraction-failure message |
| `Upload.SentCodeIsStrippedPieceOfReply` | app.py:97-113 | code sent back is non-empty, stripped, and a piece of the model's reply text |
| `Upload.BlankReplyFails` | app.py:95-117 | a reply that is empty or all whitespace gives 500 with the extraction-failure message |
| `Upload.BlockedRequests` | app.py:79-126 | unreadable text with a block reason gives 400 naming that reason; unreadable text without one falls through to the 500 extraction failure; a blocked-prompt exception gives 400 naming its reason, or `Unknown` without one |
| `Upload.OtherFailures` | app.py:128-131 | any other exception gives 500 with "An unexpected error occurred: " followed by the exception's text |
| `Upload.ErrorMessagesNonEmpty` | app.py:56-131 | every error body carries a non-empty message |
| `Controller.Verdict` | static/js/script.js:153-162 | code is shown exactly for an `ok` response with a non-empty `latex`, and it is exactly that string; every message shown is non-empty; a transport failure or unreadable body shows "Failed to connect to the server. Please try again later." |
| `Controller.VerdictReportsServerError` | static/js/script.js:155-157 | otherwise the response's `error` is shown when non-empty, else "An unknown error occurred during conversion." |
| `Controller.UploadController.constructor` | static/js/script.js:17 | the page starts with no held file, nothing shown and the button ready, which is a consistent state |
| `Controller.UploadController.ShowLoading` | static/js/script.js:21-28 | the button is disabled, labelled "Converting..." with its loader shown, both areas are hidden, and nothing else changes |
| `Controller.UploadController.HideLoading` | static/js/script.js:30-34 | the button is enabled, labelled "LaTeXify" and its loader hidden, and nothing else changes |
| `Controller.UploadController.ShowError` | static/js/script.js:36-42 | the message is shown in the error area and the result area is hidden, and nothing else changes |
| `Controller.UploadController.ShowResult` | static/js/script.js:44-52 | the code is put in the result field and shown and the error area is hidden, and nothing else changes |
| `Controller.UploadController.HandleFileSelect` | static/js/script.js:55-76 | an image replaces the held file, shows the preview, hides both areas and clears the LaTeX field; nothing, or a non-image, clears the held file, hides the preview and shows "Please select a valid image file." with the result hidden |
| `Controller.UploadController.OnInputChange` | static/js/script.js:86-90 | the first chosen file goes through the file-selection path; an empty choice changes nothing |
| `Controller.UploadController.OnDragEnter` | static/js/script.js:93-97 | the drop zone is highlighted and nothing else changes |
| `Controller.UploadController.OnDragOver` | static/js/script.js:99-103 | the drop zone is highlighted and nothing else changes |
| `Controller.UploadController.OnDragLeave` | static/js/script.js:105-112 | the highlight is cleared only when the related target is non-null and outside the zone; nothing else changes |
| `Controller.UploadController.OnDrop` | static/js/script.js:114-127 | the highlight is always cleared; the first dropped file takes the file-selection path; a drop without files shows "Could not process the dropped file." |
| `Controller.UploadController.SubmitStart` | static/js/script.js:130-141 | with no held file, "Please select or drop an image file first." is shown and no file is sent, the button untouched; otherwise the button goes busy, both areas are hidden and the held file is sent |
| `Controller.UploadController.SubmitComplete` | static/js/script.js:143-163 | the button is made ready again and then the verdict is shown: the code in the result area, or the message in the error area, never both |
| `Interaction.PageShowsServerVerdict` | static/js/script.js:149-157 | for every request, the page shows code exactly when the server answered 200, and then exactly the code extracted from the reply; otherwise it shows the server's own error message |

## Left out

- The Gemini client, its configuration, the system prompt and the streaming `resolve()` call (app.py:27-41, 75-76): foreign calls. Their result enters as `Upload.ModelOutcome`.
- PIL image decoding (app.py:68): a library call. A decoding failure is one of the `Failed` outcomes.
- Environment loading, the secret key, logging, Flask routing, `render_template` and `app.run` (app.py:1-48, 137-140): start-up and I/O.
- The fallback at app.py:134: it is reached only when a `FileStorage` with a non-empty filename is falsy, which depends on Werkzeug code that is not part of this model. Filenames are modelled as strings, so a missing filename is not represented.
- Python's general regular-expression engine: only the one pattern is modelled. IGNORECASE is modelled as ASCII case pairs, since no letter of `latex` has another case variant.
- `Extraction.Strip`: uses a fixed whitespace set, the characters for which Python's `str.isspace()` is true; Unicode database changes are not followed.
- `Upload.HandleUpload`: block reasons are modelled as optional names. For unreadable text, a feedback object whose reason is unset counts as no reason, since app.py:87 tests the reason's truthiness. For a blocked-prompt exception, app.py:124-125 reads the reason's name whenever feedback is present, so an unset reason reaches `PromptBlocked` as `Some` of that enum member's name, not as `None`.
- The JSON body's fields are modelled as optional strings. A non-string `latex` or `error` value, whose JavaScript truthiness differs, is not represented.
- DOM lookups, CSS classes and the 10 ms timer that adds the `show` class (static/js/script.js:3-15, 48-50): rendering and timers.
- The FileReader preview (static/js/script.js:58-64): `previewVisible` is set when an image is selected, not when the asynchronous read completes. The race in which a stale read shows an older preview is not modelled.
- `fetch` and `FormData` (static/js/script.js:140-149): only how the request ended is modelled, as `Controller.Completion`. `console.error` logging is left out.
- The copy button (static/js/script.js:167-208): Clipboard API, the `execCommand` fallback, `alert` and the 1500 ms title revert are browser I/O and timers.
- The drop-zone click that opens the file picker and the assignment of dropped files to the input (static/js/script.js:81-83, 121): DOM side effects with no state the model keeps.
- `Controller.UploadController.constructor`: the page's initial state comes from `index.html`, which is not part of this model. The constructor assumes no error or result shown, no preview and the button ready.
