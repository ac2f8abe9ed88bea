/**
 * The per-frame detection pipeline of recognition/main.py (detect_and_predict_mask):
 * keep the face detector's candidates whose confidence is above the threshold, clamp
 * their boxes to the frame, crop each kept region, and run the mask classifier once on
 * the whole batch, and only when at least one face was kept. A kept box whose region
 * of the frame is empty makes the colour conversion raise, and the pass fails.
 *
 * The detector, the crop-and-preprocess step and the classifier are opaque: the
 * detector's output is the input sequence `detections`, and the other two are
 * function parameters.
 */
module Detection {
  import opened Wrappers

  /** A bounding box in pixel coordinates, as the tuple (startX, startY, endX, endY). */
  datatype Box = Box(startX: int, startY: int, endX: int, endY: int)

  /** One detector candidate: its confidence and its box, already scaled to pixels. */
  datatype Candidate = Candidate(confidence: real, box: Box)

  /** One row of the classifier's output: the scores for "mask" and "without mask". */
  datatype Scores = Scores(mask: real, withoutMask: real)

  /** The bounds the clamp establishes: the left and top edges are not negative, and the
      right and bottom edges are at most the last column and the last row. */
  predicate Clamped(b: Box, width: int, height: int)
  {
    0 <= b.startX && 0 <= b.startY && b.endX <= width - 1 && b.endY <= height - 1
  }

  /** The clamp of lines 55-56: the start corner is raised to 0 and the end corner is
      lowered to (width - 1, height - 1). Nothing orders the start before the end. */
  function Clamp(b: Box, width: int, height: int): (r: Box)
    ensures Clamped(r, width, height)
    ensures Clamped(b, width, height) ==> r == b
    ensures r.startX == b.startX || (b.startX < 0 && r.startX == 0)
    ensures r.startY == b.startY || (b.startY < 0 && r.startY == 0)
    ensures r.endX == b.endX || (b.endX > width - 1 && r.endX == width - 1)
    ensures r.endY == b.endY || (b.endY > height - 1 && r.endY == height - 1)
  {
    Box(if 0 < b.startX then b.startX else 0,
        if 0 < b.startY then b.startY else 0,
        if width - 1 < b.endX then width - 1 else b.endX,
        if height - 1 < b.endY then height - 1 else b.endY)
  }

  /** Clamping an already clamped box changes nothing. */
  lemma ClampIdempotent(b: Box, width: int, height: int)
    ensures Clamp(Clamp(b, width, height), width, height) == Clamp(b, width, height)
  {
  }

  /** The clamp does not make a box well-ordered: a box left of the frame keeps
      an end column below its new start column. Its negative end then counts from
      the right edge, so the crop frame[0:9, 0:-2] is eight columns wide. */
  lemma ClampMayInvert()
    ensures var r := Clamp(Box(-5, 0, -2, 9), 10, 10); r.endX < r.startX && Croppable(r, 10, 10)
  {
  }

  /** A box right of the frame keeps its start column past the last column, so its
      crop is empty. */
  lemma OffFrameBoxNotCroppable()
    ensures var r := Clamp(Box(600, 0, 700, 10), 500, 375); r == Box(600, 0, 499, 10) && !Croppable(r, 500, 375)
  {
  }

  /** A box whose right edge is clamped onto its left edge has an empty crop. */
  lemma CollapsedBoxNotCroppable()
    ensures var r := Clamp(Box(-5, 0, 0, 9), 10, 10); r == Box(0, 0, 0, 9) && !Croppable(r, 10, 10)
  {
  }

  /** The number of elements of the Python slice [start:end] of an axis of n elements:
      a negative bound counts from the end, and both bounds are cut to [0, n]. */
  function SliceLength(start: int, end: int, n: nat): (len: nat)
    ensures len <= n
  {
    var s := if start < 0 then (if start + n < 0 then 0 else start + n) else (if start < n then start else n);
    var e := if end < 0 then (if end + n < 0 then 0 else end + n) else (if end < n then end else n);
    if s < e then e - s else 0
  }

  /** Within the axis, a slice has as many elements as its bounds are apart, and none
      when its end is not after its start. */
  lemma SliceLengthInside(start: int, end: int, n: nat)
    requires 0 <= start <= n && 0 <= end <= n
    ensures SliceLength(start, end, n) == if start < end then end - start else 0
  {
  }

  /** The face region of `b` has at least one pixel: the column slice startX:endX of the
      frame's width and the row slice startY:endY of its height are both non-empty. */
  predicate Croppable(b: Box, width: nat, height: nat)
    ensures Croppable(b, width, height) ==> 0 < width && 0 < height
    ensures 0 <= b.startX <= width && 0 <= b.endX <= width && 0 <= b.startY <= height && 0 <= b.endY <= height
            ==> (Croppable(b, width, height) <==> b.startX < b.endX && b.startY < b.endY)
  {
    SliceLength(b.startX, b.endX, width) > 0 && SliceLength(b.startY, b.endY, height) > 0
  }

  /** Every box of `locs` has a non-empty face region. */
  predicate AllCroppable(locs: seq<Box>, width: nat, height: nat)
  {
    forall i :: 0 <= i < |locs| ==> Croppable(locs[i], width, height)
  }

  /** A clamped box whose start corner is before its end corner always has a crop. */
  lemma OrderedBoxCroppable(b: Box, width: nat, height: nat)
    requires Clamped(b, width, height) && b.startX < b.endX && b.startY < b.endY
    ensures Croppable(b, width, height)
  {
    SliceLengthInside(b.startX, b.endX, width);
    SliceLengthInside(b.startY, b.endY, height);
  }

  /** The candidates whose confidence is strictly above the threshold, in detection order. */
  function Kept(detections: seq<Candidate>, threshold: real): (r: seq<Candidate>)
    ensures |r| <= |detections|
  {
    if detections == [] then []
    else
      var last := detections[|detections| - 1];
      Kept(detections[..|detections| - 1], threshold) + (if last.confidence > threshold then [last] else [])
  }

  /** Only candidates of the input above the threshold are kept. */
  lemma {:induction false} KeptSound(detections: seq<Candidate>, threshold: real, c: Candidate)
    requires c in Kept(detections, threshold)
    ensures c in detections && c.confidence > threshold
    decreases |detections|
  {
    var n := |detections|;
    if c in Kept(detections[..n - 1], threshold) {
      KeptSound(detections[..n - 1], threshold, c);
      assert detections[..n - 1] <= detections;
    }
  }

  /** Filtering distributes over concatenation, so the kept candidates keep detection order. */
  lemma {:induction false} KeptAppend(a: seq<Candidate>, b: seq<Candidate>, threshold: real)
    ensures Kept(a + b, threshold) == Kept(a, threshold) + Kept(b, threshold)
    decreases |b|
  {
    if b == [] {
      assert a + b == a;
    } else {
      var b' := b[..|b| - 1];
      assert (a + b)[..|a + b| - 1] == a + b';
      assert (a + b)[|a + b| - 1] == b[|b| - 1];
      KeptAppend(a, b', threshold);
    }
  }

  /** One candidate is kept exactly when its confidence is above the threshold; a tie is dropped. */
  lemma KeptSingle(c: Candidate, threshold: real)
    ensures Kept([c], threshold) == if c.confidence > threshold then [c] else []
  {
    assert [c][..0] == [];
  }

  /** Every candidate above the threshold is kept. */
  lemma {:induction false} KeptComplete(detections: seq<Candidate>, threshold: real, c: Candidate)
    requires c in detections && c.confidence > threshold
    ensures c in Kept(detections, threshold)
    decreases |detections|
  {
    var n := |detections|;
    if detections[n - 1] != c {
      assert detections == detections[..n - 1] + [detections[n - 1]];
      KeptComplete(detections[..n - 1], threshold, c);
    }
  }

  /** When no candidate is above the threshold, nothing is kept. */
  lemma {:induction false} KeptNone(detections: seq<Candidate>, threshold: real)
    requires forall i :: 0 <= i < |detections| ==> detections[i].confidence <= threshold
    ensures Kept(detections, threshold) == []
    decreases |detections|
  {
    if detections != [] {
      KeptNone(detections[..|detections| - 1], threshold);
    }
  }

  /** The clamped boxes of a sequence of candidates, one per candidate, in order. */
  function ClampAll(cands: seq<Candidate>, width: int, height: int): (r: seq<Box>)
    ensures |r| == |cands|
    ensures forall i :: 0 <= i < |cands| ==> r[i] == Clamp(cands[i].box, width, height)
  {
    if cands == [] then []
    else ClampAll(cands[..|cands| - 1], width, height) + [Clamp(cands[|cands| - 1].box, width, height)]
  }

  /** Clamping one more candidate adds its clamped box at the end. */
  lemma ClampAllSnoc(cands: seq<Candidate>, c: Candidate, width: int, height: int)
    ensures ClampAll(cands + [c], width, height) == ClampAll(cands, width, height) + [Clamp(c.box, width, height)]
  {
    assert (cands + [c])[..|cands|] == cands;
  }

  /** Clamping distributes over concatenation. */
  lemma ClampAllAppend(a: seq<Candidate>, b: seq<Candidate>, width: int, height: int)
    ensures ClampAll(a + b, width, height) == ClampAll(a, width, height) + ClampAll(b, width, height)
  {
  }

  /** The boxes detect_and_predict_mask appends to `locs`: the clamped boxes of the kept
      candidates, in detection order. */
  function Locations(detections: seq<Candidate>, threshold: real, width: int, height: int): (locs: seq<Box>)
    ensures |locs| == |Kept(detections, threshold)|
    ensures forall i :: 0 <= i < |locs| ==> Clamped(locs[i], width, height)
  {
    ClampAll(Kept(detections, threshold), width, height)
  }

  /** The boxes of a longer candidate sequence extend those of its prefix. */
  lemma LocationsAppend(a: seq<Candidate>, b: seq<Candidate>, threshold: real, width: int, height: int)
    ensures Locations(a + b, threshold, width, height)
            == Locations(a, threshold, width, height) + Locations(b, threshold, width, height)
  {
    KeptAppend(a, b, threshold);
    ClampAllAppend(Kept(a, threshold), Kept(b, threshold), width, height);
  }

  /** One more candidate adds its clamped box exactly when it is kept. */
  lemma LocationsStep(detections: seq<Candidate>, i: nat, threshold: real, width: int, height: int)
    requires i < |detections|
    ensures Locations(detections[..i + 1], threshold, width, height)
            == Locations(detections[..i], threshold, width, height)
               + (if detections[i].confidence > threshold then [Clamp(detections[i].box, width, height)] else [])
  {
    assert detections[..i + 1][..i] == detections[..i];
    if detections[i].confidence > threshold {
      ClampAllSnoc(Kept(detections[..i], threshold), detections[i], width, height);
    }
  }

  /** When the first i candidates give croppable boxes and candidate i is kept with an
      empty crop, that box is the first uncroppable one of the whole frame. */
  lemma FirstEmptyCrop(detections: seq<Candidate>, i: nat, threshold: real, width: nat, height: nat)
    requires i < |detections| && detections[i].confidence > threshold
    requires AllCroppable(Locations(detections[..i], threshold, width, height), width, height)
    requires !Croppable(Clamp(detections[i].box, width, height), width, height)
    ensures var all := Locations(detections, threshold, width, height);
            var k := |Locations(detections[..i], threshold, width, height)|;
            && k < |all| && all[k] == Clamp(detections[i].box, width, height)
            && all[..k] == Locations(detections[..i], threshold, width, height)
    ensures var all := Locations(detections, threshold, width, height);
            && !AllCroppable(all, width, height)
            && exists k :: 0 <= k < |all| && all[k] == Clamp(detections[i].box, width, height)
                           && !Croppable(all[k], width, height) && AllCroppable(all[..k], width, height)
  {
    LocationsStep(detections, i, threshold, width, height);
    assert detections == detections[..i + 1] + detections[i + 1..];
    LocationsAppend(detections[..i + 1], detections[i + 1..], threshold, width, height);
    var all := Locations(detections, threshold, width, height);
    var k := |Locations(detections[..i], threshold, width, height)|;
    assert !Croppable(all[k], width, height) && AllCroppable(all[..k], width, height);
  }

  /** Appending a box with a non-empty crop keeps every crop non-empty. */
  lemma AllCroppableSnoc(locs: seq<Box>, b: Box, width: nat, height: nat)
    requires AllCroppable(locs, width, height) && Croppable(b, width, height)
    ensures AllCroppable(locs + [b], width, height)
  {
    assert forall i :: 0 <= i < |locs| ==> (locs + [b])[i] == locs[i];
  }

  /** The face crops of a sequence of boxes, one per box, in order. */
  function Crops<Face>(locs: seq<Box>, crop: Box -> Face): (r: seq<Face>)
    ensures |r| == |locs|
    ensures forall i :: 0 <= i < |locs| ==> r[i] == crop(locs[i])
  {
    if locs == [] then []
    else Crops(locs[..|locs| - 1], crop) + [crop(locs[|locs| - 1])]
  }

  /** Cropping one more box adds its crop at the end. */
  lemma CropsSnoc<Face>(locs: seq<Box>, b: Box, crop: Box -> Face)
    ensures Crops(locs + [b], crop) == Crops(locs, crop) + [crop(b)]
  {
    assert (locs + [b])[..|locs|] == locs;
  }

  /** What detect_and_predict_mask gives back: the pair (locs, preds), with whether the
      classifier was called, or the first kept box whose crop was empty, on which the
      colour conversion raised. */
  datatype Detected =
    | Detected(locs: seq<Box>, preds: seq<Scores>, predicted: bool)
    | EmptyCrop(box: Box)

  /** The loop of detect_and_predict_mask over the detector's candidates: it appends the
      clamped box and the crop of every kept candidate, and stops at the first kept box
      whose crop is empty, where the colour conversion raises. */
  method CollectFaces<Face>(width: nat, height: nat, detections: seq<Candidate>, threshold: real,
                            crop: Box -> Face)
    returns (failed: Option<Box>, locs: seq<Box>, faces: seq<Face>)
    ensures failed.Some? <==> !AllCroppable(Locations(detections, threshold, width, height), width, height)
    ensures failed.Some? ==>
              exists k :: 0 <= k < |Locations(detections, threshold, width, height)|
                          && failed.value == Locations(detections, threshold, width, height)[k]
                          && !Croppable(failed.value, width, height)
                          && AllCroppable(Locations(detections, threshold, width, height)[..k], width, height)
    ensures failed.None? ==> locs == Locations(detections, threshold, width, height) && faces == Crops(locs, crop)
  {
    faces := [];
    locs := [];
    var i := 0;
    while i < |detections|
      invariant 0 <= i <= |detections|
      invariant locs == Locations(detections[..i], threshold, width, height)
      invariant faces == Crops(locs, crop)
      invariant AllCroppable(locs, width, height)
    {
      var c := detections[i];
      LocationsStep(detections, i, threshold, width, height);
      if c.confidence > threshold {
        var box := Clamp(c.box, width, height);
        if !Croppable(box, width, height) {
          FirstEmptyCrop(detections, i, threshold, width, height);
          return Some(box), locs, faces;
        }
        CropsSnoc(locs, box, crop);
        faces := faces + [crop(box)];
        AllCroppableSnoc(locs, box, width, height);
        locs := locs + [box];
      }
      i := i + 1;
    }
    assert detections[..i] == detections;
    failed := None;
  }

  /** detect_and_predict_mask on a frame of the given size. `crop` stands for the
      colour conversion, resize and preprocessing of one non-empty face region, and
      `predict` for the classifier's batch prediction, which runs only when a face was kept. */
  method DetectAndPredictMask<Face>(width: nat, height: nat, detections: seq<Candidate>, threshold: real,
                                    crop: Box -> Face, predict: seq<Face> -> seq<Scores>)
    returns (r: Detected)
    ensures r.EmptyCrop? <==> !AllCroppable(Locations(detections, threshold, width, height), width, height)
    ensures r.EmptyCrop? ==>
              exists k :: 0 <= k < |Locations(detections, threshold, width, height)|
                          && r.box == Locations(detections, threshold, width, height)[k]
                          && !Croppable(r.box, width, height)
                          && AllCroppable(Locations(detections, threshold, width, height)[..k], width, height)
    ensures r.Detected? ==> r.locs == Locations(detections, threshold, width, height)
    ensures r.Detected? ==> (r.predicted <==> Kept(detections, threshold) != [])
    ensures r.Detected? ==> r.preds == if r.predicted then predict(Crops(r.locs, crop)) else []
  {
    var failed, locs, faces := CollectFaces(width, height, detections, threshold, crop);
    if failed.Some? {
      return EmptyCrop(failed.value);
    }
    var preds: seq<Scores> := [];
    var predicted := |faces| > 0;
    if predicted {
      preds := predict(faces);
    }
    r := Detected(locs, preds, predicted);
  }
}
