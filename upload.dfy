/**
 * The `/upload` endpoint of app.py (`upload_image`) as a function from an
 * abstract request to a `(status, JSON body)` pair.
 *
 * The Gemini call, PIL decoding and Flask's request parsing are not modelled;
 * what they produce enters as `ModelOutcome`.
 */
module Upload {
  import opened Wrappers
  import opened Extraction

  /** What decoding the image and asking the model came to. */
  datatype ModelOutcome =
      /** `response.text` could be read. */
    | Reply(text: string)
      /** Reading `response.text` raised; `blockReason` is the name of
          `prompt_feedback.block_reason` when that is present and set. */
    | ReplyInaccessible(blockReason: Option<string>)
      /** The call raised `BlockedPromptException`; `reason` is the block
          reason's name found through the exception's cause, if any. */
    | PromptBlocked(reason: Option<string>)
      /** Any other exception (image decoding, the API call), with `str(e)`. */
    | Failed(message: string)

  /** The parts of the multipart request `upload_image` looks at. */
  datatype Request = Request(hasImage: bool, filename: string, outcome: ModelOutcome)

  /** The JSON body: `{"latex": ...}` or `{"error": ...}`. */
  datatype Body = Latex(code: string) | Error(message: string)

  datatype Response = Response(status: int, body: Body)

  const NoImageProvided := "No image file provided"
  const NoImageSelected := "No image selected"
  const ExtractionFailed := "Failed to extract LaTeX code from the response. The model might not have generated the expected output."
  const UnexpectedPrefix := "An unexpected error occurred: "

  const BlockedPrefix := "The request was blocked by the safety filter ("
  const BlockedSuffix := "). Please try a different image."

  /** The message for a request the safety filter blocked: it names `reason` between the fixed texts. */
  function BlockedMessage(reason: string): (m: string)
    ensures |m| == |BlockedPrefix| + |reason| + |BlockedSuffix|
    ensures m[..|BlockedPrefix|] == BlockedPrefix
    ensures m[|BlockedPrefix|..|BlockedPrefix| + |reason|] == reason
    ensures m[|BlockedPrefix| + |reason|..] == BlockedSuffix
  {
    BlockedPrefix + reason + BlockedSuffix
  }

  /**
   * The extraction step on the reply text: the code when there is any,
   * otherwise the fixed extraction failure. An empty (or inaccessible) reply
   * skips the search.
   */
  function RespondWithCode(rawText: string): (resp: Response)
    ensures resp.status == 200 <==> rawText != "" && Extract(rawText) != ""
    ensures resp.status == 200 ==> resp.body == Latex(Extract(rawText))
    ensures resp.status != 200 ==> resp == Response(500, Error(ExtractionFailed))
  {
    var latexCode := if rawText != "" then Extract(rawText) else "";
    if latexCode != "" then Response(200, Latex(latexCode))
    else Response(500, Error(ExtractionFailed))
  }

  /** `upload_image`: the validation ladder, then the model call and extraction. */
  function HandleUpload(req: Request): (resp: Response)
    ensures !req.hasImage ==> resp == Response(400, Error(NoImageProvided))
    ensures req.hasImage && req.filename == "" ==> resp == Response(400, Error(NoImageSelected))
    ensures resp.status in {200, 400, 500}
    ensures resp.body.Latex? <==> resp.status == 200
    ensures req.hasImage && req.filename != "" && req.outcome.Reply? ==>
      resp == RespondWithCode(req.outcome.text)
  {
    if !req.hasImage then Response(400, Error(NoImageProvided))
    else if req.filename == "" then Response(400, Error(NoImageSelected))
    else
      match req.outcome
      case Reply(text) => RespondWithCode(text)
      case ReplyInaccessible(Some(reason)) => Response(400, Error(BlockedMessage(reason)))
      case ReplyInaccessible(None) => RespondWithCode("")
      case PromptBlocked(reason) => Response(400, Error(BlockedMessage(reason.GetOr("Unknown"))))
      case Failed(message) => Response(500, Error(UnexpectedPrefix + message))
  }

  /** Success exactly when a readable reply yields non-empty code, and then that code is sent. */
  lemma SuccessIffCodeExtracted(req: Request)
    ensures HandleUpload(req).status == 200 <==>
      req.hasImage && req.filename != "" && req.outcome.Reply? && Extract(req.outcome.text) != ""
    ensures HandleUpload(req).status == 200 ==> HandleUpload(req).body == Latex(Extract(req.outcome.text))
    ensures req.hasImage && req.filename != "" && req.outcome.Reply? && Extract(req.outcome.text) == "" ==>
      HandleUpload(req) == Response(500, Error(ExtractionFailed))
  {
  }

  /** The code sent back is non-empty, stripped and a piece of the model's reply. */
  lemma SentCodeIsStrippedPieceOfReply(req: Request)
    ensures HandleUpload(req).body.Latex? ==> req.outcome.Reply?
    ensures HandleUpload(req).body.Latex? ==>
      var code := HandleUpload(req).body.code;
      code != "" && IsStripped(code) && IsInfix(code, req.outcome.text)
  {
  }

  /** A reply that is empty or only whitespace fails extraction with status 500. */
  lemma BlankReplyFails(req: Request)
    requires req.hasImage && req.filename != ""
    requires req.outcome.Reply? && AllSpace(req.outcome.text, 0, |req.outcome.text|)
    ensures HandleUpload(req) == Response(500, Error(ExtractionFailed))
  {
  }

  /** The safety filter's verdicts: status 400 naming the reason, or `Unknown` for a bare exception. */
  lemma BlockedRequests(req: Request)
    requires req.hasImage && req.filename != ""
    ensures req.outcome.ReplyInaccessible? && req.outcome.blockReason.Some? ==>
      HandleUpload(req) == Response(400, Error(BlockedMessage(req.outcome.blockReason.value)))
    ensures req.outcome == ReplyInaccessible(None) ==>
      HandleUpload(req) == Response(500, Error(ExtractionFailed))
    ensures req.outcome == PromptBlocked(None) ==>
      HandleUpload(req) == Response(400, Error(BlockedMessage("Unknown")))
    ensures req.outcome.PromptBlocked? && req.outcome.reason.Some? ==>
      HandleUpload(req) == Response(400, Error(BlockedMessage(req.outcome.reason.value)))
  {
  }

  /** Any other exception is a 500 whose message starts with the fixed prefix and carries `str(e)`. */
  lemma OtherFailures(req: Request)
    requires req.hasImage && req.filename != "" && req.outcome.Failed?
    ensures HandleUpload(req).status == 500
    ensures HandleUpload(req).body.Error?
    ensures var m := HandleUpload(req).body.message;
      |UnexpectedPrefix| <= |m| && m[..|UnexpectedPrefix|] == UnexpectedPrefix
      && m[|UnexpectedPrefix|..] == req.outcome.message
  {
  }

  /** Every error body carries a non-empty message. */
  lemma ErrorMessagesNonEmpty(req: Request)
    ensures HandleUpload(req).body.Error? ==> HandleUpload(req).body.message != ""
  {
  }
}
