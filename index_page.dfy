/** The page: it owns the `DetectionResults` state, sends the chosen video to
    the upload endpoint and, once the request settles, either fills in
    placeholder statistics or just stops the loading indicator. */
module IndexPage {
  import opened Wrappers
  import opened Detection
  import opened ResultsPanel
  import Rounding

  /** The body of a response, as far as `response.json()` and `data.file_url`
      go: either reading `file_url` throws (the body is not JSON, so the
      promise rejects, or it is JSON `null`, so the property access fails), or
      it yields a `file_url`, which may be missing. */
  datatype JsonBody = Unreadable | Parsed(fileUrl: Option<string>)

  /** How the `fetch` to the upload endpoint ends. */
  datatype FetchOutcome = NetworkError | Response(ok: bool, body: JsonBody)

  /** Which branch of the `try` runs to completion. */
  datatype Settlement = Succeeded(fileUrl: Option<string>) | Failed

  /** A non-ok status is thrown as an error and so joins the network error and
      the unreadable body in the `catch`; only an ok, parsed response
      succeeds, with the URL it carries. */
  function Settle(outcome: FetchOutcome): (s: Settlement)
    ensures s == Failed <==> outcome.NetworkError? || !outcome.ok || outcome.body.Unreadable?
    ensures s.Succeeded? ==> s.fileUrl == outcome.body.fileUrl
  {
    match outcome
    case NetworkError => Failed
    case Response(ok, body) =>
      if !ok then Failed
      else match body
        case Unreadable => Failed
        case Parsed(url) => Succeeded(url)
  }

  /** The ranges `Math.floor(Math.random() * 1000) + 500` and
      `Math.floor(Math.random() * 50) + 10` draw from, with the URL of the
      response and the loading indicator off. */
  predicate IsSuccessState(results: DetectionResults, fileUrl: Option<string>) {
    && 500 <= results.totalFrames <= 1499
    && 10 <= results.anomalousFrames <= 59
    && results.resultImage == fileUrl
    && !results.processing
  }

  class Page {
    /** The `results` state cell. */
    var results: DetectionResults

    constructor ()
      ensures results == Initial
    {
      results := Initial;
    }

    /** `setResults(prev => ({ ...prev, processing: true }))` */
    method StartUpload()
      modifies this
      ensures results == old(results).(processing := true)
    {
      results := results.(processing := true);
    }

    /** The whole record is replaced: random frame counts from the two ranges,
        the URL from the response, processing off. */
    method CompleteSuccess(fileUrl: Option<string>)
      modifies this
      ensures IsSuccessState(results, fileUrl)
    {
      var totalDraw: int :| 0 <= totalDraw < 1000;
      var anomalousDraw: int :| 0 <= anomalousDraw < 50;
      results := DetectionResults(totalDraw + 500, anomalousDraw + 10, fileUrl, false);
    }

    /** `setResults(prev => ({ ...prev, processing: false }))` */
    method CompleteFailure()
      modifies this
      ensures results == old(results).(processing := false)
    {
      results := results.(processing := false);
    }

    /** What happens once the request settles. */
    method Finish(outcome: FetchOutcome)
      modifies this
      ensures Settle(outcome).Succeeded? ==> IsSuccessState(results, Settle(outcome).fileUrl)
      ensures Settle(outcome) == Failed ==> results == old(results).(processing := false)
    {
      match Settle(outcome)
      case Succeeded(url) => CompleteSuccess(url);
      case Failed => CompleteFailure();
    }

    /** `handleVideoUpload` run to completion: processing is switched on
        before the request, and after it the state is the success state or
        the previous one with processing off. */
    method HandleVideoUpload(outcome: FetchOutcome)
      modifies this
      ensures Settle(outcome).Succeeded? ==> IsSuccessState(results, Settle(outcome).fileUrl)
      ensures Settle(outcome) == Failed ==> results == old(results).(processing := false)
    {
      StartUpload();
      Finish(outcome);
    }
  }

  /** A fresh page shows the empty view. */
  method InitialView() returns (v: View)
    ensures v == Empty
  {
    var page := new Page();
    v := Render(page.results);
  }

  /** While the request is in flight the loading view is shown, whatever the
      page showed before. */
  method ViewDuringUpload(before: DetectionResults) returns (v: View)
    ensures v == Loading
  {
    var page := new Page();
    page.results := before;
    page.StartUpload();
    v := Render(page.results);
  }

  /** A first upload that fails (a network error or, say, status 500) goes back
      to the all-zero state and the empty view. */
  method FailedFirstUpload(outcome: FetchOutcome) returns (results: DetectionResults, v: View)
    requires Settle(outcome) == Failed
    ensures results == Initial && v == Empty
  {
    var page := new Page();
    page.HandleVideoUpload(outcome);
    results := page.results;
    v := Render(results);
  }

  /** Every state a successful upload can produce is populated, with fewer
      anomalous than total frames, a rate between 1% and 12%, and therefore
      never the high label. */
  lemma {:induction false} SuccessView(results: DetectionResults, fileUrl: Option<string>)
    requires IsSuccessState(results, fileUrl)
    ensures results.anomalousFrames < results.totalFrames
    ensures Render(results).Populated?
    ensures 1 <= Render(results).percentage <= 12
    ensures Render(results).rate != High
  {
    var t := results.totalFrames;
    var pct := Render(results).percentage;
    if pct < 1 {
      Rounding.MulMono(pct, 0, t);
    }
    if pct > 12 {
      Rounding.MulMono(13, pct, t);
    }
  }

  /** A successful upload from any state shows its statistics and the
      response's image. */
  method SuccessfulUpload(before: DetectionResults, url: string) returns (v: View)
    requires url != ""
    ensures v.Populated? && v.image == Some(url)
    ensures 500 <= v.totalFrames <= 1499 && 10 <= v.anomalousFrames <= 59
    ensures v.rate != High
  {
    var page := new Page();
    page.results := before;
    page.HandleVideoUpload(Response(true, Parsed(Some(url))));
    SuccessView(page.results, Some(url));
    v := Render(page.results);
  }
}
