/** The upload widget: drag-and-drop or file picker, a client-side media-type
    check, and the "file selected" confirmation with a human-readable size. */
module VideoUpload {
  import opened Wrappers
  import Rounding

  /** The parts of a browser `File` the widget reads. */
  datatype File = File(name: string, size: nat, mimeType: string)

  /** `file.type.startsWith('video/')`: a case-sensitive prefix test. */
  predicate IsVideoType(mimeType: string) {
    "video/" <= mimeType
  }

  // ---------------------------------------------------------------------------
  // formatFileSize

  /** The `sizes` table: four units, indexed by the power of 1024. */
  const Sizes: seq<string> := ["Bytes", "KB", "MB", "GB"]

  /** What `'' + sizes[i]` yields: the unit, or JavaScript's `undefined`
      written out as text when `i` runs past the table. */
  function UnitName(i: nat): (unit: string)
    ensures unit in Sizes <==> i < |Sizes|
    ensures i >= |Sizes| ==> unit == "undefined"
  {
    if i < |Sizes| then Sizes[i] else "undefined"
  }

  function Pow1024(e: nat): (p: nat)
    ensures p > 0
  {
    if e == 0 then 1 else 1024 * Pow1024(e - 1)
  }

  lemma {:induction false} Pow1024Mono(i: nat, j: nat)
    requires i <= j
    ensures Pow1024(i) <= Pow1024(j)
  {
    if i < j {
      Pow1024Mono(i, j - 1);
    }
  }

  /** `Math.floor(Math.log(bytes) / Math.log(1024))` on exact integers: the
      power of 1024 that brackets `bytes`. */
  function UnitIndex(bytes: nat): (i: nat)
    requires bytes > 0
    ensures Pow1024(i) <= bytes < Pow1024(i + 1)
  {
    if bytes < 1024 then 0 else 1 + UnitIndex(bytes / 1024)
  }

  /** The bracket determines the index: it is the largest `i` with
      `1024^i <= bytes`. */
  lemma UnitIndexUnique(bytes: nat, k: nat)
    requires Pow1024(k) <= bytes < Pow1024(k + 1)
    ensures k == UnitIndex(bytes)
  {
    var i := UnitIndex(bytes);
    if k < i {
      Pow1024Mono(k + 1, i);
    } else if i < k {
      Pow1024Mono(i + 1, k);
    }
  }

  /** A formatted size: the number in hundredths (what `toFixed(2)` keeps)
      and the unit text. */
  datatype SizeText = SizeText(hundredths: nat, unit: string)

  /** `formatFileSize` as written. Zero bytes is "0 Bytes"; otherwise the size
      is scaled to the bracketing power of 1024, which for 1024^4 bytes and
      more has no entry in the table. */
  function FormatFileSize(bytes: nat): (r: SizeText)
    ensures bytes == 0 ==> r == SizeText(0, "Bytes")
    ensures bytes > 0 ==> r.unit == UnitName(UnitIndex(bytes))
    ensures bytes > 0 ==> 100 <= r.hundredths <= 102400
    ensures bytes > 0 ==>
      -(Pow1024(UnitIndex(bytes)) as int) <= 2 * (100 * bytes - r.hundredths * Pow1024(UnitIndex(bytes))) < Pow1024(UnitIndex(bytes))
    ensures r.unit in Sizes <==> bytes < Pow1024(|Sizes|)
  {
    if bytes == 0 then SizeText(0, "Bytes")
    else
      var i := UnitIndex(bytes);
      var hundredths := Rounding.RoundHalfUp(100 * bytes, Pow1024(i));
      ScaledWithinRange(bytes, i, hundredths);
      IndexBelow(bytes, i, |Sizes|);
      SizeText(hundredths, UnitName(i))
  }

  /** With `i` the bracketing index, `i < n` exactly when `bytes < 1024^n`. */
  lemma IndexBelow(bytes: nat, i: nat, n: nat)
    requires Pow1024(i) <= bytes < Pow1024(i + 1)
    ensures i < n <==> bytes < Pow1024(n)
  {
    if i < n {
      Pow1024Mono(i + 1, n);
    } else {
      Pow1024Mono(n, i);
    }
  }

  /** A size scaled to its bracketing unit reads between 1.00 and 1024.00. */
  lemma ScaledWithinRange(bytes: nat, i: nat, h: int)
    requires Pow1024(i) <= bytes < Pow1024(i + 1)
    requires -(Pow1024(i) as int) <= 2 * (100 * bytes - h * Pow1024(i)) < Pow1024(i)
    ensures 100 <= h <= 102400
  {
    var p := Pow1024(i);
    if h < 100 {
      Rounding.MulMono(h, 99, p);
    }
    if h > 102400 {
      Rounding.MulMono(102401, h, p);
    }
  }

  /** 2 TiB as written: the index is 4 and the text reads "2 undefined". */
  lemma TwoTebibytesHaveNoUnit()
    ensures UnitIndex(2 * Pow1024(4)) == 4
    ensures FormatFileSize(2 * Pow1024(4)) == SizeText(200, "undefined")
  {
  }

  /** `formatFileSize` with the index capped at the last unit of the table:
      identical below 1024^4 bytes, and always a real unit. */
  function FormatFileSizeCapped(bytes: nat): (r: SizeText)
    ensures r.unit in Sizes
    ensures bytes < Pow1024(|Sizes|) ==> r == FormatFileSize(bytes)
    ensures bytes >= Pow1024(|Sizes|) ==> r.unit == "GB" && r.hundredths >= 102400
    ensures bytes >= Pow1024(|Sizes|) ==>
      -(Pow1024(3) as int) <= 2 * (100 * bytes - r.hundredths * Pow1024(3)) < Pow1024(3)
  {
    if bytes == 0 then SizeText(0, "Bytes")
    else
      var i := if UnitIndex(bytes) < |Sizes| then UnitIndex(bytes) else |Sizes| - 1;
      var hundredths := Rounding.RoundHalfUp(100 * bytes, Pow1024(i));
      IndexBelow(bytes, UnitIndex(bytes), |Sizes|);
      AtLeastOneGibibyteUnit(bytes, i, hundredths);
      SizeText(hundredths, UnitName(i))
  }

  /** 2 TiB, capped: 2048.00 GB. */
  lemma TwoTebibytesCapped()
    ensures FormatFileSizeCapped(2 * Pow1024(4)) == SizeText(204800, "GB")
  {
    var r := FormatFileSizeCapped(2 * Pow1024(4));
    Rounding.RoundHalfUpUnique(100 * (2 * Pow1024(4)), Pow1024(3), r.hundredths);
    Rounding.RoundHalfUpUnique(100 * (2 * Pow1024(4)), Pow1024(3), 204800);
  }

  /** 1024^4 bytes or more, counted in units of 1024^3, read 1024.00 or more. */
  lemma AtLeastOneGibibyteUnit(bytes: nat, i: nat, h: int)
    requires -(Pow1024(i) as int) <= 2 * (100 * bytes - h * Pow1024(i)) < Pow1024(i)
    ensures i == 3 && bytes >= Pow1024(4) ==> h >= 102400
  {
  }

  // ---------------------------------------------------------------------------
  // The widget's state and event handlers

  /** What the widget shows: the drop zone (highlighted while a drag is over
      it) or the selected file with its size. */
  datatype WidgetView = Prompt(highlighted: bool) | Selected(name: string, size: SizeText)

  class Widget {
    /** `dragActive` */
    var dragActive: bool
    /** `uploadedFile`, null as None */
    var uploadedFile: Option<File>
    /** The files the hidden `<input type="file">` holds (`files`); its
        `value` is empty exactly when this is. */
    var pickerSelection: seq<File>
    /** The arguments of every `onVideoUpload` call so far, oldest first. */
    var forwarded: seq<File>

    /** A selected file is always the last one handed to `onVideoUpload`. */
    predicate SelectionForwarded()
      reads this
    {
      uploadedFile.Some? ==> forwarded != [] && forwarded[|forwarded| - 1] == uploadedFile.value
    }

    constructor ()
      ensures !dragActive && uploadedFile == None && pickerSelection == [] && forwarded == []
      ensures SelectionForwarded()
    {
      dragActive := false;
      uploadedFile := None;
      pickerSelection := [];
      forwarded := [];
    }

    /** The rendered widget. */
    function Display(): (v: WidgetView)
      reads this
      ensures v.Prompt? <==> uploadedFile.None?
      ensures v.Prompt? ==> v.highlighted == dragActive
      ensures v.Selected? ==>
        v.name == uploadedFile.value.name && v.size == FormatFileSize(uploadedFile.value.size)
    {
      match uploadedFile
      case None => Prompt(dragActive)
      case Some(file) => Selected(file.name, FormatFileSize(file.size))
    }

    /** `handleDrag`: enter and over highlight the drop zone, leave clears it,
        any other event type leaves it as it was. The drop zone that listens
        for drag events is rendered only while no file is selected. */
    method HandleDrag(eventType: string)
      requires uploadedFile.None?
      modifies this
      ensures eventType == "dragenter" || eventType == "dragover" ==> dragActive
      ensures eventType == "dragleave" ==> !dragActive
      ensures eventType != "dragenter" && eventType != "dragover" && eventType != "dragleave" ==>
        dragActive == old(dragActive)
      ensures uploadedFile == old(uploadedFile) && pickerSelection == old(pickerSelection)
      ensures forwarded == old(forwarded)
    {
      if eventType == "dragenter" || eventType == "dragover" {
        dragActive := true;
      } else if eventType == "dragleave" {
        dragActive := false;
      }
    }

    /** `handleFiles`: a video is selected and forwarded; anything else is
        rejected with an alert and changes nothing. */
    method HandleFiles(file: File)
      modifies this
      ensures IsVideoType(file.mimeType) ==> uploadedFile == Some(file) && forwarded == old(forwarded) + [file]
      ensures !IsVideoType(file.mimeType) ==> uploadedFile == old(uploadedFile) && forwarded == old(forwarded)
      ensures dragActive == old(dragActive) && pickerSelection == old(pickerSelection)
      ensures old(SelectionForwarded()) ==> SelectionForwarded()
    {
      if IsVideoType(file.mimeType) {
        uploadedFile := Some(file);
        forwarded := forwarded + [file];
      }
    }

    /** `handleDrop`: the highlight goes off, and the first dropped file, if
        any, goes through `handleFiles`. Drops reach only the drop zone,
        which is rendered only while no file is selected. */
    method HandleDrop(files: seq<File>)
      requires uploadedFile.None?
      modifies this
      ensures SelectionForwarded()
      ensures !dragActive && pickerSelection == old(pickerSelection)
      ensures files == [] ==> uploadedFile == old(uploadedFile) && forwarded == old(forwarded)
      ensures files != [] && IsVideoType(files[0].mimeType) ==>
        uploadedFile == Some(files[0]) && forwarded == old(forwarded) + [files[0]]
      ensures files != [] && !IsVideoType(files[0].mimeType) ==>
        uploadedFile == old(uploadedFile) && forwarded == old(forwarded)
    {
      dragActive := false;
      if files != [] {
        HandleFiles(files[0]);
      }
    }

    /** `handleChange`: the first file the picker holds (`e.target.files`),
        if any, goes through `handleFiles`. */
    method HandleChange()
      modifies this
      ensures pickerSelection == old(pickerSelection) && dragActive == old(dragActive)
      ensures pickerSelection == [] ==> uploadedFile == old(uploadedFile) && forwarded == old(forwarded)
      ensures pickerSelection != [] && IsVideoType(pickerSelection[0].mimeType) ==>
        uploadedFile == Some(pickerSelection[0]) && forwarded == old(forwarded) + [pickerSelection[0]]
      ensures pickerSelection != [] && !IsVideoType(pickerSelection[0].mimeType) ==>
        uploadedFile == old(uploadedFile) && forwarded == old(forwarded)
      ensures old(SelectionForwarded()) ==> SelectionForwarded()
    {
      if pickerSelection != [] {
        HandleFiles(pickerSelection[0]);
      }
    }

    /** The browser's side of the picker: the user chooses `files`, the input
        holds them, and a `change` event reaches `handleChange` only when the
        selection differs from what the input already held. The picker is
        opened only from the drop zone (`onButtonClick`), which is rendered
        only while no file is selected. */
    method PickFiles(files: seq<File>)
      requires uploadedFile.None?
      modifies this
      ensures SelectionForwarded()
      ensures pickerSelection == files && dragActive == old(dragActive)
      ensures files == old(pickerSelection) || files == [] ==>
        uploadedFile == old(uploadedFile) && forwarded == old(forwarded)
      ensures files != old(pickerSelection) && files != [] && IsVideoType(files[0].mimeType) ==>
        uploadedFile == Some(files[0]) && forwarded == old(forwarded) + [files[0]]
      ensures files != old(pickerSelection) && files != [] && !IsVideoType(files[0].mimeType) ==>
        uploadedFile == old(uploadedFile) && forwarded == old(forwarded)
    {
      if files != pickerSelection {
        pickerSelection := files;
        HandleChange();
      }
    }

    /** `removeFile`: back to the drop zone, with the picker emptied so that
        choosing the same file again is a change the browser reports. Its
        result does not depend on the state it starts from, so a second call
        changes nothing. */
    method RemoveFile()
      modifies this
      ensures uploadedFile == None && pickerSelection == []
      ensures dragActive == old(dragActive) && forwarded == old(forwarded)
      ensures SelectionForwarded()
    {
      uploadedFile := None;
      pickerSelection := [];
    }
  }
}
