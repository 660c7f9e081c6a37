/** The one value that flows from the page to the results panel. */
module Detection {
  import opened Wrappers

  /** `DetectionResults`: frame counts, an optional image URL (`resultImage?: string`)
      and the flag that says an upload is in flight. */
  datatype DetectionResults = DetectionResults(
    totalFrames: nat,
    anomalousFrames: nat,
    resultImage: Option<string>,
    processing: bool)

  /** The page's state when it is first rendered. */
  const Initial := DetectionResults(0, 0, None, false)
}
