/**
 * The body of the per-frame loop in myTest (recognition/main.py): for each pair of a
 * box and its classifier scores, choose the label, count it, draw it, and sound the
 * buzzer for an unmasked face while the alarm and the feed are both on.
 */
module Annotation {
  import opened Detection
  import opened Hardware

  datatype Label = Masked | Unmasked

  /** The label of one face: masked only when the mask score is strictly greater. */
  function LabelOf(s: Scores): (l: Label)
    ensures l == Masked <==> s.mask > s.withoutMask
    ensures s.mask == s.withoutMask ==> l == Unmasked
  {
    if s.mask > s.withoutMask then Masked else Unmasked
  }

  /** A colour in OpenCV's blue-green-red order. */
  datatype Color = Bgr(blue: int, green: int, red: int)

  /** The caption drawn above a face: the thanks for a mask, the warning otherwise. */
  function Caption(l: Label): (text: string)
    ensures l == Masked ==> text == "Thank You. Mask On."
    ensures l == Unmasked ==> text == "No Face Mask Detected"
  {
    match l
    case Masked => "Thank You. Mask On."
    case Unmasked => "No Face Mask Detected"
  }

  /** The drawing colour of a face: pure green for a mask, pure red otherwise. */
  function Tint(l: Label): (c: Color)
    ensures c.blue == 0
    ensures c == Bgr(0, 255, 0) <==> l == Masked
    ensures c == Bgr(0, 0, 255) <==> l == Unmasked
  {
    match l
    case Masked => Bgr(0, 255, 0)
    case Unmasked => Bgr(0, 0, 255)
  }

  /** What a face is drawn with, from its scores: the green "Thank You. Mask On." exactly
      when the mask score is strictly greater, the red "No Face Mask Detected" otherwise,
      a tie included. */
  lemma LabelDecision(s: Scores)
    ensures Caption(LabelOf(s)) == "Thank You. Mask On." <==> s.mask > s.withoutMask
    ensures Tint(LabelOf(s)) == Bgr(0, 255, 0) <==> s.mask > s.withoutMask
    ensures s.mask <= s.withoutMask ==> Caption(LabelOf(s)) == "No Face Mask Detected" && Tint(LabelOf(s)) == Bgr(0, 0, 255)
  {
    CaptionTellsLabel(LabelOf(s), Masked);
  }

  /** The caption and the colour each tell the label: different labels are drawn
      with different texts in different colours. */
  lemma CaptionTellsLabel(l: Label, l': Label)
    ensures Caption(l) == Caption(l') <==> l == l'
    ensures Tint(l) == Tint(l') <==> l == l'
  {
    if l != l' {
      assert Caption(l)[0] != Caption(l')[0];
    }
  }

  /** What is drawn onto the frame: a caption (font scale, colour, line thickness) or a rectangle. */
  datatype Mark =
    | Text(text: string, x: int, y: int, scale: real, color: Color, thickness: nat)
    | Rectangle(box: Box, color: Color, thickness: nat)

  /** The two drawing calls for one face: the caption 50 pixels left of and 10 above the
      start corner, then the box outline, both in the label's colour. */
  function MarksFor(box: Box, l: Label): (marks: seq<Mark>)
    ensures |marks| == 2
    ensures marks[0] == Text(Caption(l), box.startX - 50, box.startY - 10, 0.7, Tint(l), 2)
    ensures marks[1] == Rectangle(box, Tint(l), 2)
    ensures marks[0].color == marks[1].color
  {
    [Text(Caption(l), box.startX - 50, box.startY - 10, 0.7, Tint(l), 2), Rectangle(box, Tint(l), 2)]
  }

  type Pair = (Box, Scores)

  /** Python's zip: pairs up to the shorter of the two sequences. */
  function Zip(locs: seq<Box>, preds: seq<Scores>): (r: seq<Pair>)
    ensures |r| == if |locs| <= |preds| then |locs| else |preds|
    ensures forall i :: 0 <= i < |r| ==> r[i] == (locs[i], preds[i])
  {
    if locs == [] || preds == [] then [] else [(locs[0], preds[0])] + Zip(locs[1..], preds[1..])
  }

  /** How many pairs carry label `l`. */
  function Count(pairs: seq<Pair>, l: Label): (n: nat)
    ensures n <= |pairs|
  {
    if pairs == [] then 0
    else Count(pairs[..|pairs| - 1], l) + (if LabelOf(pairs[|pairs| - 1].1) == l then 1 else 0)
  }

  /** The positions of the pairs with label `l`: an independent account of Count. */
  ghost function Positions(pairs: seq<Pair>, l: Label): (p: set<int>)
    ensures forall i :: i in p ==> 0 <= i < |pairs| && LabelOf(pairs[i].1) == l
  {
    set i | 0 <= i < |pairs| && LabelOf(pairs[i].1) == l
  }

  /** Each counter is the number of pairs with its label. */
  lemma {:induction false} CountIsPositions(pairs: seq<Pair>, l: Label)
    ensures Count(pairs, l) == |Positions(pairs, l)|
    decreases |pairs|
  {
    if pairs != [] {
      var n := |pairs| - 1;
      var front := pairs[..n];
      CountIsPositions(front, l);
      if LabelOf(pairs[n].1) == l {
        assert Positions(pairs, l) == Positions(front, l) + {n};
      } else {
        assert Positions(pairs, l) == Positions(front, l);
      }
    }
  }

  /** Every pair is counted once: the two counters add up to the number of pairs. */
  lemma {:induction false} CountsPartition(pairs: seq<Pair>)
    ensures Count(pairs, Masked) + Count(pairs, Unmasked) == |pairs|
    decreases |pairs|
  {
    if pairs != [] {
      CountsPartition(pairs[..|pairs| - 1]);
    }
  }

  /** The buzzer calls of one frame, in pair order: one beep per unmasked pair when armed. */
  function Alerts(pairs: seq<Pair>, armed: bool): (r: seq<Event>)
    ensures forall i :: 0 <= i < |r| ==> r[i] == AlertBeep
  {
    if pairs == [] then []
    else Alerts(pairs[..|pairs| - 1], armed)
         + (if armed && LabelOf(pairs[|pairs| - 1].1) == Unmasked then [AlertBeep] else [])
  }

  /** The buzzer sounds once per unmasked face when armed, and never when not. */
  lemma {:induction false} AlertsCount(pairs: seq<Pair>, armed: bool)
    ensures |Alerts(pairs, armed)| == if armed then Count(pairs, Unmasked) else 0
    decreases |pairs|
  {
    if pairs != [] {
      AlertsCount(pairs[..|pairs| - 1], armed);
    }
  }

  /** The alerts of a frame are the alerts of its pairs one after the other, and a
      masked pair contributes none. */
  lemma {:induction false} AlertsAppend(a: seq<Pair>, b: seq<Pair>, armed: bool)
    ensures Alerts(a + b, armed) == Alerts(a, armed) + Alerts(b, armed)
    decreases |b|
  {
    if b == [] {
      assert a + b == a;
    } else {
      var b' := b[..|b| - 1];
      assert (a + b)[..|a + b| - 1] == a + b';
      assert (a + b)[|a + b| - 1] == b[|b| - 1];
      AlertsAppend(a, b', armed);
    }
  }

  lemma AlertsSingle(p: Pair, armed: bool)
    ensures Alerts([p], armed) == if armed && LabelOf(p.1) == Unmasked then [AlertBeep] else []
  {
    assert [p][..0] == [];
  }

  /** Appending to a sequence of 2n marks keeps each of its n two-mark slices, and the
      two marks appended form the slice after them. */
  lemma PairSlicesKept(a: seq<Mark>, b: seq<Mark>, n: nat)
    requires |a| == 2 * n && |b| == 2
    ensures forall i :: 0 <= i < n ==> (a + b)[2 * i..2 * i + 2] == a[2 * i..2 * i + 2]
    ensures (a + b)[2 * n..2 * n + 2] == b
  {
    forall i | 0 <= i < n
      ensures (a + b)[2 * i..2 * i + 2] == a[2 * i..2 * i + 2]
    {
      assert (a + b)[2 * i] == a[2 * i] && (a + b)[2 * i + 1] == a[2 * i + 1];
    }
  }

  /** All drawing calls of one frame, in pair order. */
  function Annotations(pairs: seq<Pair>): (r: seq<Mark>)
    ensures |r| == 2 * |pairs|
    ensures forall i :: 0 <= i < |pairs| ==> r[2 * i..2 * i + 2] == MarksFor(pairs[i].0, LabelOf(pairs[i].1))
  {
    if pairs == [] then []
    else
      var front := pairs[..|pairs| - 1];
      var last := pairs[|pairs| - 1];
      var r := Annotations(front) + MarksFor(last.0, LabelOf(last.1));
      PairSlicesKept(Annotations(front), MarksFor(last.0, LabelOf(last.1)), |front|);
      r
  }

  /** Extending a prefix of the pairs by one pair extends its counters, drawing calls
      and buzzer calls by that pair's share. */
  lemma PrefixStep(pairs: seq<Pair>, i: nat, armed: bool)
    requires i < |pairs|
    ensures Count(pairs[..i + 1], Masked) == Count(pairs[..i], Masked) + (if LabelOf(pairs[i].1) == Masked then 1 else 0)
    ensures Count(pairs[..i + 1], Unmasked) == Count(pairs[..i], Unmasked) + (if LabelOf(pairs[i].1) == Unmasked then 1 else 0)
    ensures Annotations(pairs[..i + 1]) == Annotations(pairs[..i]) + MarksFor(pairs[i].0, LabelOf(pairs[i].1))
    ensures Alerts(pairs[..i + 1], armed)
            == Alerts(pairs[..i], armed) + (if armed && LabelOf(pairs[i].1) == Unmasked then [AlertBeep] else [])
  {
    assert pairs[..i + 1][..i] == pairs[..i];
  }

  /** The loop over zip(locs, preds) with its two counters, which start at zero. It
      returns the counters, the drawing calls made on the frame and the buzzer calls,
      given whether the alarm and the video feed are on. */
  method AnnotatePairs(locs: seq<Box>, preds: seq<Scores>, alarmActive: bool, feedActive: bool)
    returns (withCounter: nat, withoutCounter: nat, marks: seq<Mark>, alerts: seq<Event>)
    ensures withCounter == Count(Zip(locs, preds), Masked)
    ensures withoutCounter == Count(Zip(locs, preds), Unmasked)
    ensures marks == Annotations(Zip(locs, preds))
    ensures alerts == Alerts(Zip(locs, preds), alarmActive && feedActive)
  {
    var pairs := Zip(locs, preds);
    withCounter, withoutCounter := 0, 0;
    marks, alerts := [], [];
    var i := 0;
    while i < |pairs|
      invariant 0 <= i <= |pairs|
      invariant withCounter == Count(pairs[..i], Masked)
      invariant withoutCounter == Count(pairs[..i], Unmasked)
      invariant marks == Annotations(pairs[..i])
      invariant alerts == Alerts(pairs[..i], alarmActive && feedActive)
    {
      var (box, pred) := pairs[i];
      PrefixStep(pairs, i, alarmActive && feedActive);
      var kind := LabelOf(pred);
      if kind == Masked {
        withCounter := withCounter + 1;
      } else {
        withoutCounter := withoutCounter + 1;
        if alarmActive && feedActive {
          alerts := alerts + [AlertBeep];
        }
      }
      marks := marks + MarksFor(box, kind);
      i := i + 1;
    }
    assert pairs[..i] == pairs;
  }
}
