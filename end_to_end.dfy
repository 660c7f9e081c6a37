/** The widget, the page, the panel and the server validator put together. */
module EndToEnd {
  import opened Wrappers
  import opened VideoUpload
  import opened IndexPage
  import opened ResultsPanel
  import Serializers

  /** Any type the widget accepts also passes the server's check. */
  lemma {:induction false} ClientAcceptedImpliesServerAccepted(file: File)
    requires IsVideoType(file.mimeType)
    ensures Serializers.ValidateFile(Serializers.UploadedFile(file.name, file.mimeType)).Success?
  {
  }

  /** The converse fails: the server lacks the "/" and takes images too,
      and both checks are case-sensitive. */
  lemma ServerLooserThanClient()
    ensures !IsVideoType("video") && Serializers.ValidateFile(Serializers.UploadedFile("clip", "video")).Success?
    ensures !IsVideoType("image/png") && Serializers.ValidateFile(Serializers.UploadedFile("shot.png", "image/png")).Success?
    ensures !IsVideoType("Video/mp4") && Serializers.ValidateFile(Serializers.UploadedFile("clip.mp4", "Video/mp4")).Failure?
  {
    assert "video"[..5] == "video";
    assert "image/png"[..5] == "image";
    assert "Video/mp4"[0] != "video"[0] && "Video/mp4"[0] != "image"[0];
  }

  /** A 2 MiB "clip.mp4" dropped on the widget is shown as "clip.mp4" of
      "2 MB" and forwarded once; an ok response carrying a URL then shows
      statistics in the drawn ranges and that URL's image. */
  method ClipScenario() returns (shown: WidgetView, v: View)
    ensures shown == Selected("clip.mp4", SizeText(200, "MB"))
    ensures v.Populated? && v.image == Some("http://host/f/clip.mp4")
    ensures 500 <= v.totalFrames <= 1499 && 10 <= v.anomalousFrames <= 59
  {
    var clip := File("clip.mp4", 2097152, "video/mp4");
    var widget := new Widget();
    widget.HandleDrop([clip]);
    assert clip.mimeType[..6] == "video/";
    TwoMebibytes();
    shown := widget.Display();
    assert widget.forwarded == [clip];

    var page := new Page();
    page.HandleVideoUpload(Response(true, Parsed(Some("http://host/f/clip.mp4"))));
    SuccessView(page.results, Some("http://host/f/clip.mp4"));
    v := Render(page.results);
  }

  lemma TwoMebibytes()
    ensures FormatFileSize(2097152) == SizeText(200, "MB")
  {
  }

  /** The same clip, chosen with the picker, is forwarded once; its upload
      gets status 500 and the page stays on the empty view. */
  method ClipServerError() returns (forwarded: seq<File>, v: View)
    ensures forwarded == [File("clip.mp4", 2097152, "video/mp4")]
    ensures v == Empty
  {
    var clip := File("clip.mp4", 2097152, "video/mp4");
    var widget := new Widget();
    widget.PickFiles([clip]);
    forwarded := widget.forwarded;
    var page := new Page();
    page.HandleVideoUpload(Response(false, Unreadable));
    v := Render(page.results);
  }

  /** A file that is not a video leaves the widget on its prompt and never
      reaches the page. */
  method RejectedFile(file: File) returns (shown: WidgetView, forwarded: seq<File>)
    requires !IsVideoType(file.mimeType)
    ensures shown == Prompt(false) && forwarded == []
  {
    var widget := new Widget();
    widget.HandleDrop([file]);
    shown := widget.Display();
    forwarded := widget.forwarded;
  }

  /** Dropping a second video requires clearing the first: the selection
      is then the second file and the first stays forwarded before it. */
  method DropReplacesAfterRemove(first: File, second: File) returns (shown: WidgetView, forwarded: seq<File>)
    requires IsVideoType(first.mimeType) && IsVideoType(second.mimeType)
    ensures shown == Selected(second.name, FormatFileSize(second.size))
    ensures forwarded == [first, second]
  {
    var widget := new Widget();
    widget.HandleDrop([first]);
    widget.RemoveFile();
    widget.HandleDrop([second]);
    shown := widget.Display();
    forwarded := widget.forwarded;
  }

  /** Clearing a selection, even twice, returns the widget to its prompt with
      the picker empty; choosing the same video again is then a change, and
      the file is selected and forwarded a second time. */
  method RemoveAndReselect(file: File) returns (afterRemove: WidgetView, afterReselect: WidgetView, forwarded: seq<File>)
    requires IsVideoType(file.mimeType)
    ensures afterRemove == Prompt(false)
    ensures afterReselect == Selected(file.name, FormatFileSize(file.size))
    ensures forwarded == [file, file]
  {
    var widget := new Widget();
    widget.PickFiles([file]);
    widget.RemoveFile();
    widget.RemoveFile();
    afterRemove := widget.Display();
    widget.PickFiles([file]);
    afterReselect := widget.Display();
    forwarded := widget.forwarded;
  }

  /** A 2 TiB video shows its size with the unit "undefined" in the selected
      view, as `formatFileSize` is written. */
  method HugeVideoScenario() returns (shown: WidgetView)
    ensures shown == Selected("huge.mp4", SizeText(200, "undefined"))
  {
    var huge := File("huge.mp4", 2 * Pow1024(4), "video/mp4");
    var widget := new Widget();
    widget.HandleDrop([huge]);
    assert huge.mimeType[..6] == "video/";
    TwoTebibytesHaveNoUnit();
    shown := widget.Display();
  }
}
