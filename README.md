# facePi mask-detection loop, modelled in Dafny

facePi (`recognition/main.py`) reads webcam frames and finds faces with a detector
network. It classifies each face as masked or unmasked with a second network and draws
the result on the frame. It beeps the Rainbow HAT buzzer for every unmasked face and
shows the two counts on the HAT's four-character display. It streams the frames as an
MJPEG multipart HTTP response. Four HTTP handlers toggle the alarm, turn the video feed
on and off, or save the last frame to disk.

This project models the deterministic decision logic of that loop:

- `detection.dfy` (module `Detection`): `detect_and_predict_mask`. It keeps the candidates
  whose confidence is strictly above the threshold, in order. It clamps each kept box to
  the frame and crops each face. It calls the classifier once on the batch, and only when
  at least one face was kept. The method keeps the source's `for` loop with its `append`s.
  The crop `frame[startY:endY, startX:endX]` follows numpy's slice rules (a negative bound
  counts from the end, both bounds are cut to the frame). When a kept box gives an empty
  crop, `cvtColor` raises on it: detection then ends with `EmptyCrop` for the first such box.
- `annotation.dfy` (module `Annotation`): the body of the `for (box, pred) in zip(locs, preds)`
  loop in `myTest`. It picks the label with a strict `>`, keeps the two counters, records
  the caption and rectangle drawn for each face, and beeps once per unmasked face while
  armed. This is a method with a loop, proved against recursive specification functions.
- `hardware.dfy` (module `Hardware`): the Rainbow HAT as a log of calls (`Buzz`, `PrintStr`,
  `Show`), Python's `str()` on counts, and the display text.
- `stream.dfy` (module `Stream`): `decodeData`, the multipart part framing, with its inverse.
- `server.dfy` (module `Server`): the globals `isAlarmActive`, `isViedoFeedActive` and
  `save_img` as the class `ProcessState`, with the handlers and one pass of the video loop
  (`ProcessFrame`). The board log and the files on disk are fields of that class. When
  detection raises, the generator ends without yielding, so `ProcessFrame` returns no
  chunk and leaves the board and `save_img` as they were.
- `wrappers.dfy` (module `Wrappers`): `Option`, for Python's `None`.

Opaque collaborators are parameters. The detector's output is the input sequence
`detections`. Face cropping and preprocessing is `crop`, the batch classifier is
`predict`, and the JPEG encoder is `encode`. A camera frame is a `Frame`: its size, an
opaque value for its pixels, and the marks drawn on it.

Two behaviours of the code worth knowing:

- The clamp at lines 55-56 does not order a box: it only raises the start corner to 0 and
  lowers the end corner to `(w - 1, h - 1)`. `Detection.ClampMayInvert` shows a box whose
  end column ends up before its start column, and `Detection.OffFrameBoxNotCroppable`
  one whose crop is empty, which makes line 61 raise.
- Before the first frame `save_img` is `None`, `cv2.imwrite` raises, and `Picture` returns
  `InternalError` and writes nothing.

## Model

| member | source | states |
|---|---|---|
| `Detection.Clamp` | recognition/main.py:53-56 | the result has startX, startY >= 0, endX <= w-1 and endY <= h-1; each coordinate is unchanged or moved exactly to the bound it crossed; a box already inside is returned unchanged |
| `Detection.ClampIdempotent` | recognition/main.py:55-56 | clamping an already clamped box changes nothing |
| `Detection.ClampMayInvert` | recognition/main.py:55-56 | the clamp does not order a box: Box(-5,0,-2,9) in a 10x10 frame ends with endX < startX |
| `Detection.Kept` | recognition/main.py:39-47 | the kept candidates are at most as many as the candidates |
| `Detection.KeptSound` | recognition/main.py:45-47 | every kept candidate is one of the input's and has confidence strictly above the threshold |
| `Detection.KeptComplete` | recognition/main.py:45-47 | every input candidate with confidence strictly above the threshold is kept |
| `Detection.KeptSingle` | recognition/main.py:45-47 | one candidate is kept iff its confidence is strictly greater than the threshold; equality drops it |
| `Detection.KeptAppend` | recognition/main.py:39-47 | filtering distributes over concatenation, so the kept candidates stay in detection order |
| `Detection.KeptNone` | recognition/main.py:45-47 | when no candidate is above the threshold nothing is kept |
| `Detection.ClampAll` | recognition/main.py:53-56 | one clamped box per kept candidate, the i-th being the clamp of the i-th candidate's box |
| `Detection.ClampAllAppend` | recognition/main.py:40-56 | clamping distributes over concatenation: the boxes stay in candidate order |
| `Detection.Locations` | recognition/main.py:40-56 | one box per kept candidate, each satisfying `Clamped` |
| `Detection.LocationsAppend` | recognition/main.py:40-56 | the boxes of a concatenation are the boxes of each part, one after the other |
| `Detection.LocationsStep` | recognition/main.py:40-69 | one more candidate adds its clamped box when its confidence is above the threshold, and nothing otherwise |
| `Detection.SliceLength` | recognition/main.py:60 | the length of a numpy slice `[start:end]` of an axis of length n is at most n |
| `Detection.SliceLengthInside` | recognition/main.py:60 | with both bounds inside the axis the slice has `end - start` elements when start < end, and none otherwise |
| `Detection.Croppable` | recognition/main.py:60-61 | the crop has at least one pixel: the column slice startX:endX of the width and the row slice startY:endY of the height are both non-empty, which needs a non-empty frame; with bounds inside the frame this is startX < endX and startY < endY. `AllCroppable` says this of every box of a list; when it fails for a kept box, `cvtColor` raises |
| `Detection.AllCroppableSnoc` | recognition/main.py:60-69 | appending a box with a non-empty crop to boxes with non-empty crops keeps `AllCroppable` |
| `Detection.OrderedBoxCroppable` | recognition/main.py:55-61 | a clamped box with start < end on both axes has a non-empty crop |
| `Detection.OffFrameBoxNotCroppable` | recognition/main.py:55-61 | a 500x375 frame and a box starting right of it: the clamp gives Box(600,0,499,10), whose crop is empty |
| `Detection.CollapsedBoxNotCroppable` | recognition/main.py:55-61 | a box ending at column 0: the clamp gives Box(0,0,0,9), whose crop is empty |
| `Detection.FirstEmptyCrop` | recognition/main.py:40-61 | when candidate i is the first kept one with an empty crop, its clamped box is the element of the whole box list right after the boxes of the candidates before it, so not every box of the frame is croppable and this is the first one that is not |
| `Detection.Crops` | recognition/main.py:58-68 | one face crop per box, in box order |
| `Detection.CollectFaces` | recognition/main.py:40-69 | the loop fails iff some kept box has an empty crop, and then on the first such box; otherwise it returns the boxes of the kept candidates and their crops |
| `Detection.DetectAndPredictMask` | recognition/main.py:22-81 | fails with `EmptyCrop` iff some kept box has an empty crop, naming the first one; otherwise `locs` are exactly the clamped boxes of the kept candidates, each satisfying `Clamped` (start corner non-negative, end corner at most (w-1, h-1)), and the classifier is called iff some candidate was kept, on the crops of `locs`, and otherwise `preds` is empty |
| `Hardware.NatToString` | recognition/main.py:161 | `str()` of a count is a non-empty string of decimal digits without a leading zero |
| `Hardware.ParseNatToString` | recognition/main.py:161 | reading the decimal text of a count back gives the count |
| `Hardware.ParseDecimal` | recognition/main.py:161 | the last digit of a decimal text is its value modulo 10 |
| `Hardware.NatToStringSingleDigit` | recognition/main.py:161 | a count is written as one character iff it is below 10 |
| `Hardware.DisplayText` | recognition/main.py:157-161 | with the feed off the text is `----`; with it on, the text is all digits, starts with '0', and its length is 2 plus the lengths of both counts' decimal texts |
| `Hardware.DisplayTextFourChars` | recognition/main.py:157-161 | the display text has 4 characters iff the feed is off or both counts are below 10 |
| `Hardware.DisplayTextDigits` | recognition/main.py:161 | for single-digit counts the text is `0`, masked digit, `0`, unmasked digit, and both counts can be read back from positions 1 and 3 |
| `Annotation.LabelOf` | recognition/main.py:135 | a face is masked iff its mask score is strictly greater than its no-mask score; a tie is unmasked |
| `Annotation.Caption` | recognition/main.py:136-141 | the caption is "Thank You. Mask On." for a masked face and "No Face Mask Detected" for an unmasked one |
| `Annotation.Tint` | recognition/main.py:137-142 | the colour is pure green (0,255,0) iff masked and pure red (0,0,255) iff unmasked |
| `Annotation.CaptionTellsLabel` | recognition/main.py:135-142 | different labels have different captions and different colours |
| `Annotation.MarksFor` | recognition/main.py:150-152 | two drawing calls: the caption at (startX-50, startY-10) at scale 0.7, then the rectangle of the box, both in the label's colour with thickness 2 |
| `Annotation.Positions` | recognition/main.py:128-144 | only indices of pairs with the given label are collected |
| `Annotation.LabelDecision` | recognition/main.py:133-142 | from the scores: a face is captioned "Thank You. Mask On." iff mask > withoutMask, drawn green iff mask > withoutMask, and otherwise (a tie included) captioned "No Face Mask Detected" in red |
| `Annotation.Zip` | recognition/main.py:128 | pairs boxes and score rows index by index, up to the shorter sequence |
| `Annotation.Count` | recognition/main.py:126-144 | a label's count never exceeds the number of pairs |
| `Annotation.CountIsPositions` | recognition/main.py:126-144 | each counter equals the number of pairs whose scores carry its label |
| `Annotation.CountsPartition` | recognition/main.py:126-144 | withCounter + withoutCounter equals the number of zipped pairs |
| `Annotation.Alerts` | recognition/main.py:143-146 | every buzzer call of a frame is midi note 60 for 1 second |
| `Annotation.AlertsCount` | recognition/main.py:143-146 | the buzzer sounds exactly once per unmasked pair when alarm and feed are on, and never otherwise |
| `Annotation.AlertsAppend` | recognition/main.py:128-146 | the buzzer calls of a frame are those of its pairs in pair order |
| `Annotation.AlertsSingle` | recognition/main.py:135-146 | one pair beeps iff it is unmasked and armed; a masked pair never beeps |
| `Annotation.Annotations` | recognition/main.py:148-152 | two drawing calls per pair, in pair order: the caption at (startX-50, startY-10), then the rectangle, both in the label's colour |
| `Annotation.PrefixStep` | recognition/main.py:128-152 | one more pair adds one to its label's counter, its two drawing calls, and a beep when unmasked and armed |
| `Annotation.AnnotatePairs` | recognition/main.py:124-152 | starting both counters at zero, the loop returns the masked and unmasked counts, the drawing calls and the buzzer calls of the zipped pairs |
| `Stream.FramingIsAscii` | recognition/main.py:185 | the header and trailer bytes are the ASCII text of the two bytes literals |
| `Stream.DecodeData` | recognition/main.py:184-185 | a chunk is 42 bytes longer than the image it frames |
| `Stream.StripFrame` | recognition/main.py:184-185 | the image recovered from a chunk is 42 bytes shorter than the chunk |
| `Stream.FrameRoundTrip` | recognition/main.py:184-185 | stripping the header and trailer from a chunk gives back the image bytes |
| `Stream.StripFrameSound` | recognition/main.py:184-185 | whatever strips to some image bytes is exactly the chunk of those bytes |
| `Stream.DecodeDataInjective` | recognition/main.py:184-185 | different images give different chunks |
| `Server.FramePairs` | recognition/main.py:122-128 | the pairs a frame's loop annotates all have clamped boxes, are at most as many as the kept candidates, and are none when nothing was kept |
| `Server.DetectedPairs` | recognition/main.py:122-128 | the zip of what detection returns is the frame's pairs |
| `Server.Emitted` | recognition/main.py:150-158 | with the feed on, the emitted image is the frame with the same size and pixels, its earlier marks kept and two marks added per pair; with the feed off it is the logo |
| `Server.FrameEvents` | recognition/main.py:143-166 | a frame's board calls are its beeps, then `print_str` of its display text for its two counts, then `show()` |
| `Server.NoFacesFrame` | recognition/main.py:71-81 | with no candidate above the threshold there are no pairs and no beeps, and the display shows `0000` (feed on) or `----` (feed off) |
| `Server.ProcessState.constructor` | recognition/main.py:18-20 | at start-up the alarm and the feed are on and no image is kept |
| `Server.ProcessState.Alarm` | recognition/main.py:187-191 | negates the alarm flag, changes nothing else, answers `alarm` |
| `Server.ProcessState.Picture` | recognition/main.py:193-197 | writes the kept image to `hallo.jpg` and answers `picture`; with no image kept it fails and writes nothing |
| `Server.ProcessState.ActivateVideoFeed` | recognition/main.py:199-203 | sets the feed flag, changes nothing else |
| `Server.ProcessState.DisableVideoFeed` | recognition/main.py:205-209 | clears the feed flag, changes nothing else |
| `Server.ProcessState.EmitFrame` | recognition/main.py:126-167 | appends the frame's beeps, its display text and `show()` to the board, keeps the emitted image as `save_img`, and returns the framed encoding of that same image; the flags are unchanged |
| `Server.ProcessState.ProcessFrame` | recognition/main.py:116-167 | one loop pass yields no chunk iff some kept box has an empty crop, and then beeps, shows and keeps nothing; otherwise it is EmitFrame on the pairs detection produces for the frame |
| `Server.AlarmTwice` | recognition/main.py:187-191 | two alarm toggles restore the alarm flag and change nothing else |
| `Server.ActivateTwice` | recognition/main.py:199-203 | enabling the feed twice leaves it on and everything else as it was, as one call does |
| `Server.DisableTwice` | recognition/main.py:205-209 | disabling the feed twice leaves it off and everything else as it was, as one call does |
| `Server.DisabledFeedShowsLogo` | recognition/main.py:157-167 | after disableViedoFeed a loop pass that yields emits and keeps the logo and shows `----` without beeping, whatever was detected; one that does not yield changes nothing |
| `Server.TwoFacesFrame` | recognition/main.py:122-163 | a frame with one masked (0.9/0.1) and one unmasked (0.2/0.8) face, armed: both crops are non-empty, one beep, display `0101`, four drawing calls |
| `Server.TwoFacesKept` | recognition/main.py:45-47 | of the scenario's candidates (0.97, 0.3, 0.88) at threshold 0.5, the first and third are kept, in that order |
| `Server.TwoPairsTally` | recognition/main.py:126-161 | a masked pair followed by an unmasked pair, armed, gives exactly one beep, then display text `0101`, then `show()` |
| `Server.TwoFacesScenario` | recognition/main.py:111-167 | the same frame run from the start-up state yields a chunk, leaves the board with one beep, `0101` and `show()`, and keeps an annotated image |

## Left out

- Neural inference and image processing are opaque: `blobFromImage`, `faceNet.forward`, `maskNet.predict`, `cvtColor`, `resize`, `img_to_array`, `preprocess_input`, `imencode`, `imread` and `imwrite`. They are inputs or function parameters, and drawing is recorded as marks on the frame, not as pixels.
- The scaling of the detector's relative box by (w, h, w, h) and the truncation to integers at lines 50-51: boxes arrive as integers.
- Floating point: confidences and scores are reals, so NaN and rounding are not modelled.
- Camera I/O and start-up: `VideoStream`, `vs.read`, `flip`, `imutils.resize`, `time.sleep`, the `cv2.waitKey` exit on `q`, and the cleanup at lines 173-175. The frame is an input to one loop pass.
- Flask: routing, `render_template` for `/`, the `Response` stream and the generator's laziness. `ProcessFrame` is one iteration of the generator and returns the chunk it would yield.
- Concurrency: several `/video_feed` subscribers racing on the camera, the board and the globals, and handlers running during a loop pass. The source re-reads both flags for every unmasked face; the model reads them once per frame.
- Other ways the face preprocessing at lines 61-64 can raise (a crop too small for `resize`, a malformed frame) are not modelled; only the empty crop is.
- Command-line parsing and model loading at lines 83-108.
- The board log keeps the buzzer, display and `show()` calls in order. Drawing calls go to the frame, so their interleaving with the beeps is not recorded.
