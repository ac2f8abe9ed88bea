/**
 * The process-wide state of recognition/main.py (the globals isAlarmActive,
 * isViedoFeedActive and save_img), the HTTP control handlers that change it, and one
 * iteration of the video loop in myTest, from a camera frame to the multipart chunk it
 * yields.
 *
 * The Rainbow HAT is the event log `board`; the image files on disk are the map `files`.
 * Camera reads, the detector network, the face preprocessing, the classifier and the
 * JPEG encoder are inputs or function parameters.
 */
module Server {
  import opened Wrappers
  import opened Detection
  import opened Hardware
  import opened Annotation
  import opened Stream

  /** A camera frame after flip and resize: its size, an opaque value standing for its
      pixels, and the marks drawn on it so far. */
  datatype Frame = Frame(width: nat, height: nat, pixels: nat, marks: seq<Mark>)

  /** The image that is encoded and kept for snapshots: the frame converted to RGB
      order, or the static logo image read in greyscale. */
  datatype Image = Rgb(frame: Frame) | Logo

  /** The file the snapshot handler writes. */
  const SnapshotFile: string := "hallo.jpg"

  /** What a handler answers: its plaintext acknowledgement, or a server error when the
      handler raises. */
  datatype Reply = Ok(body: string) | InternalError

  /** The (box, scores) pairs the loop annotates for one frame: the clamped kept boxes,
      zipped with the classifier's rows, or with nothing when no face was kept. */
  function FramePairs<Face>(frame: Frame, detections: seq<Candidate>, threshold: real,
                            crop: Box -> Face, predict: seq<Face> -> seq<Scores>): (pairs: seq<Pair>)
    ensures forall i :: 0 <= i < |pairs| ==> Clamped(pairs[i].0, frame.width, frame.height)
    ensures |pairs| <= |Kept(detections, threshold)|
    ensures Kept(detections, threshold) == [] ==> pairs == []
  {
    var locs := Locations(detections, threshold, frame.width, frame.height);
    Zip(locs, if locs != [] then predict(Crops(locs, crop)) else [])
  }

  /** The pairs the loop of a frame step annotates are the frame's pairs. */
  lemma DetectedPairs<Face>(frame: Frame, detections: seq<Candidate>, threshold: real,
                            crop: Box -> Face, predict: seq<Face> -> seq<Scores>, r: Detected)
    requires r.Detected?
    requires r.locs == Locations(detections, threshold, frame.width, frame.height)
    requires r.predicted <==> Kept(detections, threshold) != []
    requires r.preds == if r.predicted then predict(Crops(r.locs, crop)) else []
    ensures Zip(r.locs, r.preds) == FramePairs(frame, detections, threshold, crop, predict)
  {
    assert r.predicted <==> r.locs != [];
  }

  /** The image a frame step emits and keeps: the annotated frame when the feed is on,
      the logo when it is off. */
  function Emitted(frame: Frame, pairs: seq<Pair>, feedActive: bool): (image: Image)
    ensures feedActive ==> image.Rgb? && |frame.marks| <= |image.frame.marks| && image.frame.marks[..|frame.marks|] == frame.marks
    ensures feedActive ==> image.frame.width == frame.width && image.frame.height == frame.height
                           && image.frame.pixels == frame.pixels
                           && |image.frame.marks| == |frame.marks| + 2 * |pairs|
    ensures !feedActive ==> image == Logo
  {
    if feedActive then Rgb(frame.(marks := frame.marks + Annotations(pairs))) else Logo
  }

  /** The board calls of a frame step, in order: the beeps, the display text, show. */
  function FrameEvents(pairs: seq<Pair>, alarmActive: bool, feedActive: bool): (events: seq<Event>)
    ensures |events| >= 2 && events[|events| - 1] == Show
    ensures events[|events| - 2] == PrintStr(DisplayText(feedActive, Count(pairs, Masked), Count(pairs, Unmasked)))
    ensures events[..|events| - 2] == Alerts(pairs, alarmActive && feedActive)
  {
    Alerts(pairs, alarmActive && feedActive)
    + [PrintStr(DisplayText(feedActive, Count(pairs, Masked), Count(pairs, Unmasked))), Show]
  }

  /** What the loop's results amount to: the frame EmitFrame keeps and the board calls
      it makes are those of its pairs. */
  lemma EmitParts(frame: Frame, pairs: seq<Pair>, alarmActive: bool, feedActive: bool,
                  withCounter: nat, withoutCounter: nat, marks: seq<Mark>, alerts: seq<Event>)
    requires withCounter == Count(pairs, Masked) && withoutCounter == Count(pairs, Unmasked)
    requires marks == Annotations(pairs) && alerts == Alerts(pairs, alarmActive && feedActive)
    ensures (if feedActive then Rgb(frame.(marks := frame.marks + marks)) else Logo) == Emitted(frame, pairs, feedActive)
    ensures alerts + [PrintStr(DisplayText(feedActive, withCounter, withoutCounter)), Show]
            == FrameEvents(pairs, alarmActive, feedActive)
  {
  }

  class ProcessState {
    var isAlarmActive: bool
    var isVideoFeedActive: bool
    var saveImg: Option<Image>
    var board: seq<Event>
    var files: map<string, Image>

    /** The state at start-up: alarm on, feed on, no frame kept yet. */
    constructor ()
      ensures isAlarmActive && isVideoFeedActive && saveImg == None
      ensures board == [] && files == map[]
    {
      isAlarmActive := true;
      isVideoFeedActive := true;
      saveImg := None;
      board := [];
      files := map[];
    }

    /** GET /alarm: flips the alarm flag. */
    method Alarm() returns (reply: Reply)
      modifies this`isAlarmActive
      ensures isAlarmActive == !old(isAlarmActive)
      ensures reply == Ok("alarm")
    {
      isAlarmActive := !isAlarmActive;
      reply := Ok("alarm");
    }

    /** GET /picture: writes the last emitted image to the snapshot file. Before the
        first frame there is no image and OpenCV's imwrite raises. */
    method Picture() returns (reply: Reply)
      modifies this`files
      ensures saveImg.Some? ==> files == old(files)[SnapshotFile := saveImg.value] && reply == Ok("picture")
      ensures saveImg.None? ==> files == old(files) && reply == InternalError
    {
      if saveImg.Some? {
        files := files[SnapshotFile := saveImg.value];
        reply := Ok("picture");
      } else {
        reply := InternalError;
      }
    }

    /** GET /activateViedoFeed: turns the feed on. */
    method ActivateVideoFeed() returns (reply: Reply)
      modifies this`isVideoFeedActive
      ensures isVideoFeedActive
      ensures reply == Ok("activateViedoFeed")
    {
      isVideoFeedActive := true;
      reply := Ok("activateViedoFeed");
    }

    /** GET /disableViedoFeed: turns the feed off. */
    method DisableVideoFeed() returns (reply: Reply)
      modifies this`isVideoFeedActive
      ensures !isVideoFeedActive
      ensures reply == Ok("disableViedoFeed")
    {
      isVideoFeedActive := false;
      reply := Ok("disableViedoFeed");
    }

    /** The part of a loop pass after detection: annotate the pairs, beep, update the
        display, keep the image as the snapshot and frame its encoding as a chunk. */
    method EmitFrame(frame: Frame, locs: seq<Box>, preds: seq<Scores>, encode: Image -> seq<byte>)
      returns (chunk: seq<byte>)
      modifies this`saveImg, this`board
      ensures saveImg == Some(Emitted(frame, Zip(locs, preds), isVideoFeedActive))
      ensures board == old(board) + FrameEvents(Zip(locs, preds), isAlarmActive, isVideoFeedActive)
      ensures chunk == DecodeData(encode(saveImg.value))
    {
      var withCounter, withoutCounter, marks, alerts := AnnotatePairs(locs, preds, isAlarmActive, isVideoFeedActive);
      var image := Rgb(frame.(marks := frame.marks + marks));
      if !isVideoFeedActive {
        image := Logo;
      }
      var text := DisplayText(isVideoFeedActive, withCounter, withoutCounter);
      var events := alerts + [PrintStr(text), Show];
      EmitParts(frame, Zip(locs, preds), isAlarmActive, isVideoFeedActive, withCounter, withoutCounter, marks, alerts);
      saveImg := Some(image);
      board := board + events;
      chunk := DecodeData(encode(image));
    }

    /** One pass of the video loop on `frame`: detection, then EmitFrame. When a kept
        box has an empty crop, detection raises, the generator ends without yielding,
        and nothing is beeped, shown or kept. The flags are read and not changed. */
    method ProcessFrame<Face>(frame: Frame, detections: seq<Candidate>, threshold: real,
                              crop: Box -> Face, predict: seq<Face> -> seq<Scores>,
                              encode: Image -> seq<byte>)
      returns (chunk: Option<seq<byte>>)
      modifies this`saveImg, this`board
      ensures chunk.None? <==> !AllCroppable(Locations(detections, threshold, frame.width, frame.height),
                                             frame.width, frame.height)
      ensures chunk.None? ==> saveImg == old(saveImg) && board == old(board)
      ensures chunk.Some? ==>
                saveImg == Some(Emitted(frame, FramePairs(frame, detections, threshold, crop, predict), isVideoFeedActive))
      ensures chunk.Some? ==>
                board == old(board) + FrameEvents(FramePairs(frame, detections, threshold, crop, predict),
                                                  isAlarmActive, isVideoFeedActive)
      ensures chunk.Some? ==> chunk.value == DecodeData(encode(saveImg.value))
    {
      var r := DetectAndPredictMask(frame.width, frame.height, detections, threshold, crop, predict);
      if r.EmptyCrop? {
        return None;
      }
      DetectedPairs(frame, detections, threshold, crop, predict, r);
      var bytes := EmitFrame(frame, r.locs, r.preds, encode);
      chunk := Some(bytes);
    }
  }

  /** A frame in which no candidate passes the threshold annotates nothing, counts
      zero of each label and never beeps. */
  lemma NoFacesFrame<Face>(frame: Frame, detections: seq<Candidate>, threshold: real,
                           crop: Box -> Face, predict: seq<Face> -> seq<Scores>, alarmActive: bool, feedActive: bool)
    requires forall i :: 0 <= i < |detections| ==> detections[i].confidence <= threshold
    ensures FramePairs(frame, detections, threshold, crop, predict) == []
    ensures FrameEvents(FramePairs(frame, detections, threshold, crop, predict), alarmActive, feedActive)
            == [PrintStr(if feedActive then "0000" else Placeholder), Show]
  {
    KeptNone(detections, threshold);
    DisplayTextDigits(0, 0);
  }

  /** Two alarm toggles restore the alarm flag and change nothing else. */
  method AlarmTwice(s: ProcessState)
    modifies s
    ensures s.isAlarmActive == old(s.isAlarmActive)
    ensures s.isVideoFeedActive == old(s.isVideoFeedActive)
    ensures s.saveImg == old(s.saveImg) && s.board == old(s.board) && s.files == old(s.files)
  {
    var _ := s.Alarm();
    var _ := s.Alarm();
  }

  /** Enabling the feed twice leaves the state enabling it once leaves: the feed on,
      and the alarm, the kept image, the board and the files as they were. */
  method ActivateTwice(s: ProcessState)
    modifies s
    ensures s.isVideoFeedActive
    ensures s.isAlarmActive == old(s.isAlarmActive)
    ensures s.saveImg == old(s.saveImg) && s.board == old(s.board) && s.files == old(s.files)
  {
    var _ := s.ActivateVideoFeed();
    var _ := s.ActivateVideoFeed();
  }

  /** Disabling the feed twice leaves the state disabling it once leaves. */
  method DisableTwice(s: ProcessState)
    modifies s
    ensures !s.isVideoFeedActive
    ensures s.isAlarmActive == old(s.isAlarmActive)
    ensures s.saveImg == old(s.saveImg) && s.board == old(s.board) && s.files == old(s.files)
  {
    var _ := s.DisableVideoFeed();
    var _ := s.DisableVideoFeed();
  }

  /** With the feed disabled, a frame step emits and keeps the logo and shows the
      placeholder, whatever the camera and the networks produced, and it does not beep,
      unless detection raised on an empty crop. */
  method DisabledFeedShowsLogo<Face>(s: ProcessState, frame: Frame, detections: seq<Candidate>, threshold: real,
                                     crop: Box -> Face, predict: seq<Face> -> seq<Scores>,
                                     encode: Image -> seq<byte>)
      returns (chunk: Option<seq<byte>>)
    modifies s
    ensures chunk.Some? ==> chunk.value == DecodeData(encode(Logo)) && s.saveImg == Some(Logo)
    ensures chunk.Some? ==> s.board == old(s.board) + [PrintStr(Placeholder), Show]
    ensures chunk.None? ==> s.saveImg == old(s.saveImg) && s.board == old(s.board)
  {
    var _ := s.DisableVideoFeed();
    chunk := s.ProcessFrame(frame, detections, threshold, crop, predict, encode);
    ghost var pairs := FramePairs(frame, detections, threshold, crop, predict);
    AlertsCount(pairs, false);
  }

  /** Two faces above the threshold (and one below), one classified masked (0.9
      against 0.1) and one unmasked (0.2 against 0.8), with alarm and feed on: one of
      each is counted, the buzzer sounds once, the display reads "0101", and the frame
      receives a caption and a rectangle for each face. The second box is clamped to
      the frame's last column. */
  lemma TwoFacesFrame<Face>(crop: Box -> Face, predict: seq<Face> -> seq<Scores>)
    requires predict(Crops([Box(40, 60, 140, 180), Box(300, 50, 499, 200)], crop))
             == [Scores(0.9, 0.1), Scores(0.2, 0.8)]
    ensures AllCroppable(Locations(TwoFacesDetections(), 0.5, 500, 375), 500, 375)
    ensures var pairs := FramePairs(Frame(500, 375, 0, []), TwoFacesDetections(), 0.5, crop, predict);
            && FrameEvents(pairs, true, true) == [AlertBeep, PrintStr("0101"), Show]
            && |Annotations(pairs)| == 4
  {
    TwoFacesKept();
    var locs := Locations(TwoFacesDetections(), 0.5, 500, 375);
    assert locs == [Box(40, 60, 140, 180), Box(300, 50, 499, 200)];
    OrderedBoxCroppable(locs[0], 500, 375);
    OrderedBoxCroppable(locs[1], 500, 375);
    var pairs := FramePairs(Frame(500, 375, 0, []), TwoFacesDetections(), 0.5, crop, predict);
    assert pairs == Zip(locs, [Scores(0.9, 0.1), Scores(0.2, 0.8)]);
    TwoPairsTally(pairs);
  }

  /** Of the three candidates, the first and the third are above 0.5. */
  lemma TwoFacesKept()
    ensures Kept(TwoFacesDetections(), 0.5) == [TwoFacesDetections()[0], TwoFacesDetections()[2]]
  {
    var detections := TwoFacesDetections();
    KeptAppend(detections[..2], [detections[2]], 0.5);
    KeptAppend(detections[..1], [detections[1]], 0.5);
    assert detections[..2] == detections[..1] + [detections[1]];
    assert detections == detections[..2] + [detections[2]];
    KeptSingle(detections[0], 0.5);
    KeptSingle(detections[1], 0.5);
    KeptSingle(detections[2], 0.5);
  }

  /** A masked pair followed by an unmasked one, armed: one beep and the text 0101. */
  lemma TwoPairsTally(pairs: seq<Pair>)
    requires |pairs| == 2 && LabelOf(pairs[0].1) == Masked && LabelOf(pairs[1].1) == Unmasked
    ensures FrameEvents(pairs, true, true) == [AlertBeep, PrintStr("0101"), Show]
  {
    assert pairs == [pairs[0]] + [pairs[1]];
    assert pairs[..1] == [pairs[0]];
    assert Count(pairs, Masked) == 1 && Count(pairs, Unmasked) == 1;
    AlertsAppend([pairs[0]], [pairs[1]], true);
    AlertsSingle(pairs[0], true);
    AlertsSingle(pairs[1], true);
    DisplayTextDigits(1, 1);
  }

  /** The detector's output for the scenario frame. */
  function TwoFacesDetections(): (detections: seq<Candidate>)
  {
    [Candidate(0.97, Box(40, 60, 140, 180)), Candidate(0.3, Box(0, 0, 9, 9)),
     Candidate(0.88, Box(300, 50, 520, 200))]
  }

  /** The same frame run through a fresh process state. */
  method TwoFacesScenario() returns (chunk: Option<seq<byte>>, board: seq<Event>, emitted: Option<Image>)
    ensures chunk.Some?
    ensures board == [AlertBeep, PrintStr("0101"), Show]
    ensures emitted.Some? && emitted.value.Rgb? && |emitted.value.frame.marks| == 4
  {
    var s := new ProcessState();
    var crop := (b: Box) => b;
    var predict := (faces: seq<Box>) => [Scores(0.9, 0.1), Scores(0.2, 0.8)];
    var frame := Frame(500, 375, 0, []);
    TwoFacesFrame(crop, predict);
    ghost var pairs := FramePairs(frame, TwoFacesDetections(), 0.5, crop, predict);
    assert |Emitted(frame, pairs, true).frame.marks| == 4;
    chunk := s.ProcessFrame(frame, TwoFacesDetections(), 0.5, crop, predict, (i: Image) => []);
    board := s.board;
    emitted := s.saveImg;
  }
}
