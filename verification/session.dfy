/**
 * The page's shared state and its event handlers: the current file, the
 * debounce timer, the quality slider, the zoom scale and the image on display.
 * The image codec (file reading, image decoding, canvas drawing and the JPEG
 * re-encoding) is a function parameter that yields the data-URL length or an
 * error; each processing run is taken to complete before the next event.
 */
module App {
  import opened Wrappers
  import opened Inputs
  import opened CompressionStats
  import Zoom
  import opened Debounce
  import opened DownloadName

  /** The failures the processing chain rejects with. */
  datatype CodecError = ReadFailed | ImageLoadFailed | NoCanvasContext

  /** Re-encodes a file at a quality in [0, 1]; yields the length of the resulting data URL. */
  type Codec = (File, real) -> Result<nat, CodecError>

  /** What one call of `handleFileProcessing` did. */
  datatype Outcome =
    | Rejected                                            // not an image: nothing started
    | Displayed(file: File, quality: real, stats: Stats)  // encoded and shown
    | Failed(file: File, quality: real, error: CodecError) // processing threw: the UI was reset

  /** The image on display, with the slider percentage it was encoded at and its statistics. */
  datatype Shown = Shown(percent: nat, stats: Stats)

  /** The quality handed to processing: the slider's percentage divided by 100. */
  function Quality(percent: nat): (q: real)
    ensures 0.0 <= q
    ensures q <= 1.0 <==> percent <= 100
    ensures q * 100.0 == percent as real
  {
    percent as real / 100.0
  }

  class Session {
    /** `state.currentFile`. */
    var currentFile: Option<File>
    /** `state.debounceTimer`. */
    var timer: Timer
    /** The quality slider's value. */
    var slider: nat
    /** `CONFIG.scale`. */
    var scale: real
    /** The processed image on the canvas, which the download button saves. */
    var shown: Option<Shown>

    /** Every slider input and clock reading so far, and the slider's value before them. */
    ghost var events: seq<Event>
    ghost var initialSlider: nat

    ghost predicate Valid()
      reads this
    {
      && timer == Run(events)
      && slider == SliderAfter(initialSlider, events)
      && Zoom.MinScale <= scale <= Zoom.MaxScale
      && (currentFile.Some? ==> Accepts(currentFile))
    }

    /** Page load: no file, no timer, the slider at its initial value and the scale at 1. */
    constructor (initialPercent: nat)
      ensures Valid()
      ensures currentFile == None && timer == Idle && shown == None
      ensures slider == initialPercent && scale == Zoom.InitialScale
      ensures events == []
    {
      currentFile := None;
      timer := Idle;
      slider := initialPercent;
      scale := Zoom.InitialScale;
      shown := None;
      events := [];
      initialSlider := initialPercent;
    }

    /** `resetUI`: the display is cleared and the current file forgotten; the timer is left alone. */
    method Reset()
      requires Valid()
      modifies this`currentFile, this`shown
      ensures Valid()
      ensures currentFile == None && shown == None
    {
      currentFile := None;
      shown := None;
    }

    /**
     * The state and outcome one processing run of the image `f` leaves behind:
     * it ran at the slider's quality; on success `f` is the current file and its
     * statistics are on display, on failure the UI was reset.
     */
    ghost predicate ProcessedAs(f: File, codec: Codec, outcome: Outcome)
      reads this
    {
      var quality := Quality(slider);
      match codec(f, quality)
      case Ok(dataUrlLength) =>
        var stats := CalculateCompressionStats(f.size, dataUrlLength);
        && outcome == Displayed(f, quality, stats)
        && currentFile == Some(f)
        && shown == Some(Shown(slider, stats))
      case Err(error) =>
        && outcome == Failed(f, quality, error)
        && currentFile == None
        && shown == None
    }

    /**
     * `handleFileProcessing(file)`: a missing or non-image file is rejected with
     * nothing changed. An image becomes the current file before processing runs
     * at the slider's quality; success shows the result, failure resets the UI.
     */
    method HandleFileProcessing(file: Option<File>, codec: Codec) returns (outcome: Outcome)
      requires Valid()
      modifies this`currentFile, this`shown
      ensures Valid()
      ensures !Accepts(file) ==>
        outcome == Rejected && currentFile == old(currentFile) && shown == old(shown)
      ensures Accepts(file) ==> ProcessedAs(file.value, codec, outcome)
    {
      if !Accepts(file) {
        outcome := Rejected;
        return;
      }
      currentFile := file;
      var quality := Quality(slider);
      var encoded := codec(file.value, quality);
      match encoded
      case Ok(dataUrlLength) =>
        var stats := CalculateCompressionStats(file.value.size, dataUrlLength);
        shown := Some(Shown(slider, stats));
        outcome := Displayed(file.value, quality, stats);
      case Err(error) =>
        Reset();
        outcome := Failed(file.value, quality, error);
    }

    /** The file input's `change` listener: processes `files[0]`, absent for an empty selection. */
    method OnFilePicked(files: seq<File>, codec: Codec) returns (outcome: Outcome)
      requires Valid()
      modifies this`currentFile, this`shown
      ensures Valid()
      ensures files == [] || !IsImageType(files[0].mime) ==>
        outcome == Rejected && currentFile == old(currentFile) && shown == old(shown)
      ensures files != [] && IsImageType(files[0].mime) ==> ProcessedAs(files[0], codec, outcome)
    {
      outcome := HandleFileProcessing(PickedSelection(files), codec);
    }

    /** `handleFileDrop`: processes the first image file of the payload; nothing when there is none. */
    method OnDrop(items: seq<Item>, codec: Codec) returns (outcome: Option<Outcome>)
      requires Valid()
      modifies this`currentFile, this`shown
      ensures Valid()
      ensures outcome.None? <==> forall i :: 0 <= i < |items| ==> !IsDropCandidate(items[i])
      ensures outcome.None? ==> currentFile == old(currentFile) && shown == old(shown)
      ensures outcome.Some? ==> ProcessedAs(DropSelection(items).value, codec, outcome.value)
    {
      var file := DropSelection(items);
      if file.Some? {
        var o := HandleFileProcessing(file, codec);
        outcome := Some(o);
      } else {
        outcome := None;
      }
    }

    /**
     * `handlePaste`: processes the file of the first image-typed entry; nothing
     * when there is none, or when that entry holds no file.
     */
    method OnPaste(items: seq<Item>, codec: Codec) returns (outcome: Option<Outcome>)
      requires Valid()
      modifies this`currentFile, this`shown
      ensures Valid()
      ensures outcome.None? <==> PasteSelection(items).None?
      ensures outcome.None? ==> currentFile == old(currentFile) && shown == old(shown)
      ensures outcome.Some? ==> ProcessedAs(PasteSelection(items).value, codec, outcome.value)
    {
      var file := PasteSelection(items);
      if file.Some? {
        var o := HandleFileProcessing(file, codec);
        outcome := Some(o);
      } else {
        outcome := None;
      }
    }

    /** The slider's `input` listener: records the value, clears any pending timer and arms a new one. */
    method SliderInput(now: int, value: nat)
      requires Valid()
      modifies this`slider, this`timer, this`events
      ensures Valid()
      ensures events == old(events) + [Input(now, value)]
      ensures slider == value && timer == Pending(now + DebounceTime)
    {
      assert (events + [Input(now, value)])[..|events|] == events;
      slider := value;
      timer := Pending(now + DebounceTime);
      events := events + [Input(now, value)];
    }

    /**
     * The clock reaching `now`: a due timer fires and becomes idle; its callback
     * processes the current file at the slider's present quality, and does
     * nothing when there is no current file.
     */
    method Tick(now: int, codec: Codec) returns (outcome: Option<Outcome>)
      requires Valid()
      modifies this`timer, this`events, this`currentFile, this`shown
      ensures Valid()
      ensures events == old(events) + [Clock(now)]
      ensures FiresAt(events, |old(events)|) ==> timer == Idle
      ensures !FiresAt(events, |old(events)|) ==> timer == old(timer)
      ensures outcome.Some? <==> FiresAt(events, |old(events)|) && old(currentFile).Some?
      ensures outcome.None? ==> currentFile == old(currentFile) && shown == old(shown)
      ensures outcome.Some? ==> ProcessedAs(old(currentFile).value, codec, outcome.value)
    {
      assert (events + [Clock(now)])[..|events|] == events;
      var fires := Due(timer, now);
      events := events + [Clock(now)];
      if fires {
        timer := Idle;
      }
      if fires && currentFile.Some? {
        var o := HandleFileProcessing(currentFile, codec);
        outcome := Some(o);
      } else {
        outcome := None;
      }
    }

    /** `handleWheelScroll`: one zoom step, clamped to [0.1, 100]. */
    method Wheel(deltaY: real)
      requires Valid()
      modifies this`scale
      ensures Valid()
      ensures scale == Zoom.Zoomed(old(scale), deltaY)
    {
      scale := Zoom.Zoomed(scale, deltaY);
    }

    /**
     * The download button's click as written: the name takes the slider's value
     * at click time, which need not be the value the shown image was encoded at.
     */
    method DownloadAsWritten() returns (name: Option<string>)
      ensures name.Some? <==> shown.Some?
      ensures name.Some? ==> PercentOfFileName(name.value) == Some(slider)
    {
      if shown.Some? {
        FileNameRoundTrip(slider, slider);
        name := Some(FileName(slider));
      } else {
        name := None;
      }
    }

    /** The download button's click: the name carries the percentage the saved image was encoded at. */
    method Download() returns (name: Option<string>)
      ensures name.Some? <==> shown.Some?
      ensures name.Some? ==> PercentOfFileName(name.value) == Some(shown.value.percent)
    {
      if shown.Some? {
        FileNameRoundTrip(shown.value.percent, shown.value.percent);
        name := Some(FileName(shown.value.percent));
      } else {
        name := None;
      }
    }
  }

  /**
   * An image processed at 80%, then the slider moved to 30% and the download
   * clicked before the debounce timer fires: the name as written says 30 while
   * the saved image was encoded at 80.
   */
  method MislabelledDownload() returns (asWritten: string, corrected: string)
    ensures PercentOfFileName(asWritten) == Some(30)
    ensures PercentOfFileName(corrected) == Some(80)
  {
    var session := new Session(80);
    var photo := File("photo.png", "image/png", 500 * 1024);
    var codec: Codec := (f: File, q: real) => Ok(400 * 1024);
    var first := session.HandleFileProcessing(Some(photo), codec);
    session.SliderInput(1000, 30);
    var named := session.DownloadAsWritten();
    var fixed := session.Download();
    asWritten, corrected := named.value, fixed.value;
  }
}
