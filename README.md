# Video anomaly-detection front end: a verified model

The system is a small web application: a React page where a user drops or
picks a video, the page uploads it to a Django endpoint, and a results panel
shows frame statistics and an image. The statistics are placeholders drawn at
random on the client once the upload succeeds. This project models the parts
of it that follow exact rules, and proves what those rules promise:

- **Results panel** (`ResultsPanel`): a pure function from a
  `DetectionResults` record to one of three views: Loading, Empty or
  Populated. The Populated view carries the anomaly percentage, the
  low/moderate/high label and the image, when there is one.
  `Math.round(a / t * 100)` is modelled as integer rounding half-up,
  `(200a + t) / (2t)` (`Rounding.RoundHalfUp(100a, t)`). This is an integer
  idealisation of the float expression.
- **Page** (`IndexPage.Page`): a class whose one field is the `results`
  state cell. Its methods are the three updates of `handleVideoUpload`:
  start the upload, succeed, or fail. A success draws random frame counts; the
  model draws them with `:|` from the ranges `Math.floor(Math.random() * N) + c`
  can produce. The `fetch` itself is a `FetchOutcome` parameter.
- **Upload widget** (`VideoUpload.Widget`): a class with the `dragActive` and
  `uploadedFile` fields. It also holds the picker's selection (what
  `fileInputRef.current.value` reflects) and the sequence of files handed to
  `onVideoUpload`. Its event handlers are methods, the media-type test is
  `IsVideoType`: the prefix `video/` including the slash, case-sensitive. `formatFileSize` is modelled on integers. The unit index
  is the `i` with `1024^i <= bytes < 1024^(i+1)`. The number is kept in
  hundredths, which is what `toFixed(2)` keeps.
- **Server validator** (`Serializers.ValidateFile`): the content-type prefix
  check of `UploadSerializer.validate_file`, which returns the file or raises
  a `ValidationError`.
- **Scenarios** (`EndToEnd`): the pieces put together. These are a 2 MiB
  `clip.mp4` that succeeds, the same clip rejected with status 500, a
  non-video file, clearing and re-selecting a file, and a comparison of the
  client's `"video/"` check with the server's `"video"`/`"image"` check.

Files: `wrappers.dfy`, `rounding.dfy`, `detection.dfy`, `results_panel.dfy`,
`index_page.dfy`, `video_upload.dfy`, `serializers.dfy`, `end_to_end.dfy`.

## Model

| member | source | states |
|---|---|---|
| `Rounding.RoundHalfUp` | Frontend/src/components/ResultsPanel.tsx:14 | the result `r` is within half a unit of `n/d`, ties upward: `-d <= 2(n - r d) < d` |
| `Rounding.RoundHalfUpUnique` | Frontend/src/components/ResultsPanel.tsx:14 | any integer within that half-unit bracket is the rounded value, so the bracket defines `Math.round` on non-negative quotients |
| `ResultsPanel.AnomalyPercentage` | Frontend/src/components/ResultsPanel.tsx:13-15 | 0 when there are no frames; otherwise `100·anomalous/total` rounded half-up; at most 100 when anomalous <= total |
| `ResultsPanel.PercentAtMostHundred` | Frontend/src/components/ResultsPanel.tsx:13-15 | a percentage rounded from a share of at most one is at most 100 |
| `ResultsPanel.RateOf` | Frontend/src/components/ResultsPanel.tsx:116-120 | Low iff pct < 5, Moderate iff 5 <= pct < 15, High iff pct >= 15 |
| `ResultsPanel.ShownImage` | Frontend/src/components/ResultsPanel.tsx:127-152 | the image block is shown iff `resultImage` is present and non-empty (JavaScript truthiness), and then it shows that URL |
| `ResultsPanel.Render` | Frontend/src/components/ResultsPanel.tsx:17-65 | Loading iff processing (whatever the counts); Empty iff not processing and no frames; Populated otherwise, with the counts, the percentage, its label and the shown image |
| `ResultsPanel.RateFromFrames` | Frontend/src/components/ResultsPanel.tsx:116-120 | read off the frame counts, the label is High iff `200a >= 29t` (at least 14.5%) and Low iff `200a < 9t` (below 4.5%) |
| `ResultsPanel.PopulatedViewIsConsistent` | Frontend/src/components/ResultsPanel.tsx:99-124 | in every populated view the percentage is the rounded share of anomalous frames and the label matches the frame-count thresholds |
| `VideoUpload.UnitName` | Frontend/src/components/VideoUpload.tsx:65-67 | the unit is one of the four table entries iff `i < 4`; past the table it is the text "undefined" |
| `VideoUpload.UnitIndex` | Frontend/src/components/VideoUpload.tsx:66 | the index brackets the size: `1024^i <= bytes < 1024^(i+1)` |
| `VideoUpload.UnitIndexUnique` | Frontend/src/components/VideoUpload.tsx:66 | the bracketing index is unique: it is the largest `i` with `1024^i <= bytes` |
| `VideoUpload.FormatFileSize` | Frontend/src/components/VideoUpload.tsx:62-68 | 0 bytes is exactly "0 Bytes"; otherwise the number is the size in units of `1024^i`, rounded to hundredths (within half a hundredth), between 1.00 and 1024.00; the unit is a table entry iff bytes < 1024^4 |
| `VideoUpload.TwoTebibytesHaveNoUnit` | Frontend/src/components/VideoUpload.tsx:65-67 | as written, 2·1024^4 bytes get index 4 and format as 2.00 "undefined" |
| `VideoUpload.FormatFileSizeCapped` | Frontend/src/components/VideoUpload.tsx:62-68 | the corrected formatter always names a table unit, agrees with `formatFileSize` below 1024^4 bytes, and above it shows the size in GB (1024.00 or more), rounded to hundredths |
| `VideoUpload.TwoTebibytesCapped` | Frontend/src/components/VideoUpload.tsx:62-68 | with the cap, 2·1024^4 bytes format as 2048.00 "GB" |
| `VideoUpload.Widget.constructor` | Frontend/src/components/VideoUpload.tsx:11-13 | no drag highlight, no file selected, an empty picker, nothing forwarded |
| `VideoUpload.Widget.Display` | Frontend/src/components/VideoUpload.tsx:80-145 | the drop zone iff no file is selected, highlighted iff `dragActive`; otherwise the selected file's name and its size as `formatFileSize` (uncapped) gives it |
| `VideoUpload.Widget.HandleDrag` | Frontend/src/components/VideoUpload.tsx:15-23 | dragenter/dragover set `dragActive`, dragleave clears it, any other type leaves it; nothing else changes; called only while no file is selected, since only the drop zone listens (lines 80-92) |
| `VideoUpload.Widget.HandleFiles` | Frontend/src/components/VideoUpload.tsx:42-49 | a `video/` type is selected and forwarded to `onVideoUpload` once; any other type changes neither the selection nor the forwarded files |
| `VideoUpload.Widget.HandleDrop` | Frontend/src/components/VideoUpload.tsx:25-33 | the highlight always goes off; only the first dropped file is considered; an empty drop changes nothing else; called only while no file is selected; afterwards a selected file is the last one forwarded |
| `VideoUpload.Widget.HandleChange` | Frontend/src/components/VideoUpload.tsx:35-40 | only the first file the picker holds is considered; an empty picker changes no selection and forwards nothing; the picker is not changed |
| `VideoUpload.Widget.PickFiles` | Frontend/src/components/VideoUpload.tsx:57-59 | the browser side of the picker: the input holds the chosen files, and `handleChange` runs only when they differ from what it held, so re-choosing the held selection forwards nothing; opened only from the drop zone, so only while no file is selected; afterwards a selected file is the last one forwarded |
| `VideoUpload.Widget.RemoveFile` | Frontend/src/components/VideoUpload.tsx:55-60 | the selection and the picker are cleared whatever they were, so a second call changes nothing and choosing any file afterwards is a change; the rest is unchanged |
| `IndexPage.Settle` | Frontend/src/pages/Index.tsx:28-49 | the request succeeds iff the response is ok and `data.file_url` can be read (the body is JSON and not `null`); a non-ok status fails exactly like a network error; a success carries the body's `file_url`, possibly missing |
| `IndexPage.Page.constructor` | Frontend/src/pages/Index.tsx:15-19 | the state starts as zero frames, no image, not processing |
| `IndexPage.Page.StartUpload` | Frontend/src/pages/Index.tsx:23 | processing becomes true; counts and image are unchanged |
| `IndexPage.Page.CompleteSuccess` | Frontend/src/pages/Index.tsx:40-45 | the whole record is replaced: total in [500, 1499], anomalous in [10, 59], image = the response's URL, not processing |
| `IndexPage.Page.CompleteFailure` | Frontend/src/pages/Index.tsx:46-49 | only processing changes, to false |
| `IndexPage.Page.Finish` | Frontend/src/pages/Index.tsx:28-49 | after the request settles the state is the success state or the previous state with processing off |
| `IndexPage.Page.HandleVideoUpload` | Frontend/src/pages/Index.tsx:21-50 | start then finish: success state on success, the state before the upload with processing off on failure |
| `IndexPage.InitialView` | Frontend/src/pages/Index.tsx:15-19 | a fresh page shows the Empty view |
| `IndexPage.ViewDuringUpload` | Frontend/src/pages/Index.tsx:23 | once an upload starts, the Loading view is shown whatever the state before |
| `IndexPage.FailedFirstUpload` | Frontend/src/pages/Index.tsx:46-49 | a failed first upload returns to the all-zero state and the Empty view |
| `IndexPage.SuccessView` | Frontend/src/pages/Index.tsx:40-45 | after success anomalous < total, the view is Populated, the rate is between 1% and 12%, and the label is never High |
| `IndexPage.SuccessfulUpload` | Frontend/src/pages/Index.tsx:40-45 | from any prior state, an ok response with a URL yields a Populated view with counts in range, that URL's image and a label other than High |
| `Serializers.AnyStartsWith` | Backend/videos/serializers.py:8 | `any(s.startswith(t) for t in prefixes)` holds iff some listed prefix is a prefix of `s` |
| `Serializers.ValidateFile` | Backend/videos/serializers.py:6-10 | accepted iff the content type starts with "video" or "image"; an accepted file is returned unchanged; otherwise the error "Only video or image files are allowed." |
| `EndToEnd.ClientAcceptedImpliesServerAccepted` | Backend/videos/serializers.py:7-8 | every type the widget accepts (`video/…`) passes the server check |
| `EndToEnd.ServerLooserThanClient` | Backend/videos/serializers.py:7-9 | "video" and "image/png" pass the server but not the widget; "Video/mp4" fails both, since the test is case-sensitive |
| `EndToEnd.TwoMebibytes` | Frontend/src/components/VideoUpload.tsx:62-68 | `formatFileSize` gives 2,097,152 bytes as 2.00 "MB" |
| `EndToEnd.ClipScenario` | Frontend/src/pages/Index.tsx:21-50 | dropping `clip.mp4` (2 MiB, `video/mp4`) shows "clip.mp4", "2 MB"; an ok upload then shows counts in range and the response's URL |
| `EndToEnd.ClipServerError` | Frontend/src/pages/Index.tsx:34-36 | the clip chosen with the picker is forwarded once; its upload answered with a non-ok status leaves the page on the Empty view |
| `EndToEnd.RejectedFile` | Frontend/src/components/VideoUpload.tsx:42-49 | a non-video file leaves the widget on its un-highlighted prompt and forwards nothing |
| `EndToEnd.DropReplacesAfterRemove` | Frontend/src/components/VideoUpload.tsx:80-92 | since drops are only taken while nothing is selected, a second video is selected only after `removeFile`; it is then shown and forwarded after the first |
| `EndToEnd.RemoveAndReselect` | Frontend/src/components/VideoUpload.tsx:55-60 | after clearing (once or twice) the prompt is back; choosing the same video again selects it and forwards it a second time |
| `EndToEnd.HugeVideoScenario` | Frontend/src/components/VideoUpload.tsx:127 | a dropped 2 TiB video is shown with the size text 2.00 "undefined" |

## Findings

| source | as written | input that shows it | evidently intended | confidence | as-written member | corrected member |
|---|---|---|---|---|---|---|
| Frontend/src/components/VideoUpload.tsx:65-67 | the unit index is not capped at the last entry of the four-entry `sizes` table, so `sizes[i]` is `undefined` for files of 1024^4 bytes or more | a 2·1024^4-byte file (2,199,023,255,552 bytes) is shown as "2 undefined" | use the largest unit in the table ("2048 GB") | medium (not executed; such files are rare, and the float `Math.log` quotient is only idealised here) | `VideoUpload.TwoTebibytesHaveNoUnit` | `VideoUpload.FormatFileSizeCapped` |

The widget's selected view (`Widget.Display`) keeps the formatter as written, so it shows the discrepancy (`EndToEnd.HugeVideoScenario`); `FormatFileSizeCapped` is the corrected definition.

## Left out

- The fetch, its multipart `FormData` body, `response.json()`, `console` logging and `alert` are I/O. A request's result is the `FetchOutcome` parameter, and the rejection alert is not part of the widget state.
- `Math.random` is left out. Each draw is any integer `floor(random * N)` can take, chosen with `:|`, so the model covers every value in the ranges but says nothing about their distribution.
- The float details of `Math.round(a / t * 100)`, `Math.log(bytes) / Math.log(1024)`, `toFixed(2)` and `parseFloat` are not modelled. Rounding and the unit index are exact integer idealisations. Near a power of 1024 the float quotient can land on the other side of an integer, and that case is not covered. The same holds for exact ties of the percentage: when `200a` equals `29t` or `9t`, the double `(a / t) * 100` can fall just below the half (a = 29, t = 200 gives 14.499999999999998, so the page says Moderate where `ResultsPanel.RateFromFrames` says High). The ranges a successful upload draws from never produce such a tie.
- The printing of the number (`parseFloat` drops trailing zeros, so 200 hundredths prints as "2") is not modelled. `SizeText` keeps the number in hundredths.
- `toLocaleString`, the JSX markup, CSS classes, icons and animations are not modelled. The views keep only the data they print.
- `VideoUpload.Widget.HandleFiles`: the `onVideoUpload` callback is recorded in `forwarded` and not invoked. The page's reaction is modelled separately by `IndexPage.Page.HandleVideoUpload`, and the scenarios chain the two.
- `onButtonClick` (opening the file picker) only triggers a browser dialog. The drop zone that carries it and the drag handlers is rendered only while no file is selected, which the model states as `requires uploadedFile.None?` on `Widget.HandleDrag`, `Widget.HandleDrop` and `Widget.PickFiles`. The browser's part of the picker (holding the chosen files and firing `change` only when they differ) is modelled by `Widget.PickFiles`; cancelling the dialog is not. The browser's null `files` list is modelled as an empty sequence.
- Overlapping uploads and the interleaving at `await` are not modelled. The source does not guard them, and `HandleVideoUpload` models one upload running to completion. `StartUpload` and `Finish` give the state in between.
- Backend/videos/views.py is not part of this model. It covers ResNet50 features, PCA, IsolationForest scoring, `cv2` frame I/O and Django storage: foreign ML libraries, float numerics and the file system.
- Backend/test_model_loading.py is not part of this model. It only checks that a file exists, loads it and prints.
