/**
 * The server's `/upload` response as the page's submit handler receives it
 * (app.py `upload_image` feeding static/js/script.js's submit listener).
 */
module Interaction {
  import opened Wrappers
  import Extraction
  import Upload
  import Controller

  /** The completion the page sees for a response: `ok` for a 2xx status, the body's fields as parsed. */
  function Delivered(resp: Upload.Response): Controller.Completion {
    Controller.Responded(
      200 <= resp.status < 300,
      if resp.body.Latex? then Some(resp.body.code) else None,
      if resp.body.Error? then Some(resp.body.message) else None)
  }

  /**
   * The page shows code exactly when the server succeeded, and then exactly
   * the code extracted from the model's reply; otherwise it shows the
   * server's own error message, never the page's fallback.
   */
  lemma PageShowsServerVerdict(req: Upload.Request)
    ensures var resp := Upload.HandleUpload(req);
      var d := Controller.Verdict(Delivered(resp));
      && (d.ShowCode? <==> resp.status == 200)
      && (d.ShowCode? ==> req.outcome.Reply? && d.code == Extraction.Extract(req.outcome.text))
      && (d.ShowMessage? ==> resp.body.Error? && d.message == resp.body.message)
  {
  }
}
