# Image compressor core, modelled in Dafny

A model of the deterministic logic of a browser image compressor (`script.js`).
The user loads an image by file picker, drag-and-drop or clipboard paste. The
page re-encodes it as JPEG at the quality the slider sets, shows it with size
statistics, and lets the user zoom with the wheel and download the result.

The image codec is an opaque function parameter of type
`(File, real) -> Result<nat, CodecError>`. It stands for the file read, the
image decode, the canvas drawing and `toDataURL('image/jpeg', q)`, and yields
the data-URL length or a failure. Around that parameter the model has these
modules:

- `Inputs` (inputs.dfy): the `startsWith('image/')` gate, and the first-match
  selection of the file picker, drop and paste handlers.
- `CompressionStats` (stats.dfy): `calculateCompressionStats` in exact real
  arithmetic. The compressed size is `length * 3 / 4` bytes of the whole data
  URL (RFC 2397), prefix included, after the base64 ratio of section 4 of RFC 4648.
  The reduction is unclamped. JavaScript's minus infinity and NaN are kept for an
  empty original.
- `Zoom` (zoom.dfy): the wheel step of ±0.1, clamped to [0.1, 100].
- `Debounce` (debounce.dfy): the slider's trailing-edge debounce as a timer over
  a history of slider inputs and clock readings. A reference description of the
  timer is proved equal to it. The firing rule, "at most once per burst" and
  "latest value" are proved from that description.
- `DownloadName` (download_name.dfy): `compressed-image-<value>.jpg`, with its
  decimal rendering and a parser that recovers the value.
- `App` (session.dfy): class `Session` with the page's mutable state. The fields
  are `state.currentFile`, `state.debounceTimer`, the slider value, `CONFIG.scale`
  and the image on display. Each event handler is a method. A ghost history of
  slider and clock events ties the timer and the slider to the `Debounce` model.

`resetUI` (script.js:197-213) does not clear `state.debounceTimer`, so
`Session.Reset` leaves `timer` alone. A pending timer still fires after a reset,
finds no current file and does nothing (`Session.Tick`).

## Model

| member | source | states |
|---|---|---|
| `Inputs.Item.AsFile` | script.js:174 | `getAsFile()` yields a file exactly for entries of kind "file", and that file has the entry's type |
| `Inputs.StartsWithIffConcat` | script.js:141 | `startsWith(prefix)` holds exactly when the string is the prefix followed by some rest |
| `Inputs.StartsWith` | script.js:141 | `String.prototype.startsWith`: the prefix is no longer than the string and matches it character by character, in both directions |
| `Inputs.Accepts` | script.js:141-144 | the gate of `handleFileProcessing` passes only a present file whose type is at least as long as "image/" |
| `Inputs.AcceptsIffImageSubtype` | script.js:141-144 | a missing file is refused; a present file passes the gate iff its type is "image/" followed by anything |
| `Inputs.FindFirst` | script.js:172-173 | `find` returns the first index whose element satisfies the filter, and no earlier element does; nothing iff no element does |
| `Inputs.DropSelection` | script.js:172-176 | the dropped file is that of the first entry of kind "file" with an image type; nothing when there is none; what is selected passes the gate |
| `Inputs.PasteSelection` | script.js:180-184 | the pasted file is `getAsFile()` of the first entry with an image type, whatever its kind; nothing when there is none |
| `Inputs.PickedSelection` | script.js:225 | the picker hands on `files[0]`, and nothing for an empty selection |
| `Inputs.PickedAcceptedIffFirstIsImage` | script.js:225 | the picked file passes the gate iff the selection is non-empty and its first file has an image type, and then it is that first file |
| `Inputs.FindFirstRespectsAgreement` | script.js:172-181 | two filters that agree on every entry make `find` pick the same entry |
| `Inputs.DropAgreesWithPasteOnFiles` | script.js:172-184 | on a payload of file entries only, drop and paste select the same file |
| `Inputs.PasteStopsAtImageTypedString` | script.js:180-184 | an image-typed string entry ahead of an image file makes paste select nothing, while drop selects the file |
| `CompressionStats.EstimatedBytes` | script.js:90 | the estimated compressed size is three quarters of the data-URL length, never negative |
| `CompressionStats.ReductionOf` | script.js:91 | for a positive original, reduction × original = (original − compressed) × 100; for a zero original, minus infinity if compressed > 0 and NaN if 0 |
| `CompressionStats.CalculateCompressionStats` | script.js:88-94 | originalSizeKB × 1024 = size; compressedSizeKB × 1024 = length × 3/4; the reduction is a finite percentage iff size > 0, and then reduction × originalSizeKB = (originalSizeKB − compressedSizeKB) × 100 |
| `CompressionStats.ReductionSign` | script.js:91 | unclamped reduction: positive iff compressed < original, zero iff equal, negative iff larger; at most 100, and exactly 100 iff the data URL is empty |
| `CompressionStats.EstimateOfJpegDataUrl` | script.js:84-90 | for a JPEG data URL of n encoded bytes, the estimate exceeds n by between 17.25 and 19.25 bytes (prefix plus base64 padding) |
| `Zoom.Sign` | script.js:218 | `Math.sign` is positive exactly for positive input and zero exactly for zero |
| `Zoom.Clamp` | script.js:217-218 | `min(max(0.1, x), 100)` lies in [0.1, 100], is x inside the range and the nearer bound outside it |
| `Zoom.Zoomed` | script.js:215-218 | after a wheel event the scale is in [0.1, 100]; a positive delta never raises it and steps down by 0.1 away from the bound; any other delta never lowers it and steps up by 0.1 away from the bound |
| `Zoom.ZoomRoundTrip` | script.js:217-218 | away from the bounds, one step in and one step out cancel, in either order, in exact arithmetic; the program's doubles can drift by an ulp |
| `Zoom.ZoomSaturates` | script.js:217-218 | at 0.1 a further step down and at 100 a further step up leave the scale unchanged |
| `Debounce.Step` | script.js:234-238 | an input clears any pending timer and re-arms it at its time + 500 ms; a clock reading leaves the timer unchanged unless it is due, and then idles it |
| `Debounce.Run` | script.js:232-240 | after any history a pending deadline is 500 ms after some input of that history |
| `Debounce.RunMatchesExpected` | script.js:232-240 | the timer after any history is pending at the last input's time + 500 ms, unless there was no input or a clock reading has since reached that deadline |
| `Debounce.FiresIffQuiet` | script.js:234-238 | the timer fires at a clock reading iff an earlier input was followed only by readings before its deadline and this reading reaches it |
| `Debounce.AtMostOncePerBurst` | script.js:234-239 | between any two firings there is a slider input: at most one processing run per burst |
| `Debounce.SliderIsLastInput` | script.js:232-233 | the slider holds the value of the last input, or its initial value when there was none |
| `Debounce.FiringUsesLatestValue` | script.js:148 | a firing at least 500 ms after the last input sees that input's value on the slider |
| `DownloadName.Decimal` | script.js:192 | the slider value is written as a non-empty string of decimal digits without a leading zero |
| `DownloadName.ParseDecimalOfDecimal` | script.js:192 | parsing the decimal rendering of n gives back n |
| `DownloadName.FileName` | script.js:192 | the download name starts with "compressed-image-" and ends with ".jpg" |
| `DownloadName.FileNameRoundTrip` | script.js:192 | the percentage can be read back from the name, and distinct percentages give distinct names |
| `App.Quality` | script.js:148 | quality = slider / 100: never negative, at most 1 iff the slider is at most 100 |
| `App.Session.constructor` | script.js:17-29 | page load: no file, no pending timer, scale 1, nothing on display |
| `App.Session.Reset` | script.js:197-213 | the current file and the display are cleared; the pending timer is not touched |
| `App.Session.HandleFileProcessing` | script.js:140-155 | a missing or non-image file is rejected with nothing changed; an image becomes the current file and is processed at slider/100; success shows its statistics, failure resets so that the current file is null |
| `App.Session.OnFilePicked` | script.js:225 | an empty pick or a non-image first file is rejected with file and display unchanged; otherwise the first file is processed at slider/100 and becomes the current file with its statistics shown, or the UI is reset on failure |
| `App.Session.OnDrop` | script.js:167-177 | processing runs iff some entry is an image file, on the first such file, at slider/100, leaving it current and shown on success and a reset UI on failure; otherwise nothing changes |
| `App.Session.OnPaste` | script.js:179-185 | processing runs iff the first image-typed entry holds a file, on that file, at slider/100, leaving it current and shown on success and a reset UI on failure; otherwise nothing changes |
| `App.Session.SliderInput` | script.js:232-235 | every input records the slider value and re-arms the timer at now + 500 ms, whatever was pending |
| `App.Session.Tick` | script.js:235-239 | a due timer fires and goes idle; processing runs iff it fires and there is a current file, on that file at the slider's quality at fire time, and the display then carries that slider percentage (or the UI is reset on failure); otherwise nothing changes |
| `App.Session.Wheel` | script.js:215-220 | the scale takes one clamped zoom step |
| `App.Session.DownloadAsWritten` | script.js:187-195 | as written: the name carries the slider's value at click time |
| `App.Session.Download` | script.js:187-195 | corrected: the name carries the percentage the displayed image was encoded at |
| `App.MislabelledDownload` | script.js:187-195 | after processing at 80 and moving the slider to 30 within the debounce window, the as-written name says 30 and the corrected one says 80 |

## Findings

| source | as written | input that shows it | evidently intended | confidence | as-written member | corrected member |
|---|---|---|---|---|---|---|
| script.js:187-195 | the click handler names the file after `DOM.slider.value` read at click time, but saves the data URL captured when the image was shown | process an image at 80, move the slider to 30, click download before the 500 ms timer fires: `compressed-image-30.jpg` holds the quality-0.8 image | the name carries the quality the saved image was encoded at | medium, not executed | `App.Session.DownloadAsWritten`, `App.MislabelledDownload` | `App.Session.Download` |

## Left out

- The codec chain (`FileReader`, `Image` decoding, canvas drawing, `toDataURL`, script.js:44-86) is an opaque function parameter. Decoded dimensions and the pixels are not modelled.
- Asynchrony: each processing run completes before the next event. When overlapping `processImage` calls resolve out of order, a stale result can overwrite a newer one. A late failure can also reset a newer file. Neither race is modelled.
- All DOM and CSS work is left out because it is presentation only. This covers `updateUI`, `updateImageDisplay`, `updateFileHandlerState`, `updateFileInfo`, the drag-over and drag-leave styling, the resolution label, the pixel-vision toggle, the hidden file input and clearing its value on reset, and the anchor click itself.
- `toFixed(2)` formatting and the "- x%" label are left out. Statistics are exact reals, not doubles, and zoom steps do not accumulate floating-point error.
- `Zoom.Sign`: takes a real, so NaN deltas (where `Math.sign` gives NaN and the wheel zooms in) are not modelled.
- `console.error` logging on rejection and on failure is not modelled.
- The thrown error's message is reduced to a `CodecError` tag.
- The slider's value is a natural number. Its range and initial value come from index.html, which is not part of this model, so the initial value is a constructor parameter. `CONFIG.defaultQuality` is never read by script.js and appears nowhere.
- sw.js (offline asset cache) is left out because it is browser I/O with no logic of its own.
