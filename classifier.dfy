/** Per-frame classification: the fire and person gates, the detection
    loops that draw each kept contour on the shared output image and then
    raise its alert, and processFrame, which ties the heat map, the
    adaptive person threshold and both loops together. */
module Classifier {
  import opened Imaging
  import Percentile
  import Config

  /** The 1e-6 that guards the aspect ratio against zero-width boxes. */
  const EPSILON: real := 1.0 / 1000000.0
  const PERSON_ASPECT_MIN: real := 7.0 / 10.0

  /** `rect.height / (rect.width + 1e-6)` */
  function Aspect(r: Rect): real {
    r.height as real / (r.width as real + EPSILON)
  }

  /** Fire keeps a contour unless `area < minArea`: no upper bound, no shape test. */
  predicate FireGate(c: Contour, minArea: real) {
    c.area >= minArea
  }

  /** Person drops a contour when `area < minArea || area > maxArea`, then
      when its aspect is below 0.7. */
  predicate PersonGate(c: Contour, minArea: real, maxArea: real) {
    minArea <= c.area <= maxArea && Aspect(c.rect) >= PERSON_ASPECT_MIN
  }

  predicate Kept(kind: Kind, c: Contour, minArea: real, maxArea: real) {
    match kind
    case Fire => FireGate(c, minArea)
    case Person => PersonGate(c, minArea, maxArea)
  }

  /** The contours a detection loop keeps, in the order it meets them. */
  function Selected(kind: Kind, cs: seq<Contour>, minArea: real, maxArea: real): (r: seq<Contour>)
    ensures |r| <= |cs|
  {
    if cs == [] then []
    else
      var last := cs[|cs| - 1];
      var init := Selected(kind, cs[..|cs| - 1], minArea, maxArea);
      if Kept(kind, last, minArea, maxArea) then init + [last] else init
  }

  /** The kept contours are exactly those that pass the kind's gate. */
  lemma {:induction false} SelectedSpec(kind: Kind, cs: seq<Contour>, minArea: real, maxArea: real)
    ensures forall c :: c in Selected(kind, cs, minArea, maxArea) <==> c in cs && Kept(kind, c, minArea, maxArea)
  {
    if cs != [] {
      var last := cs[|cs| - 1];
      SelectedSpec(kind, cs[..|cs| - 1], minArea, maxArea);
      assert cs == cs[..|cs| - 1] + [last];
    }
  }

  /** Selection works contour by contour: a single contour is kept exactly
      when it passes the gate, and the selection of a concatenation is the
      concatenation of the selections. So the kept contours keep their
      order and their multiplicity. */
  lemma {:induction false} SelectedAppend(kind: Kind, a: seq<Contour>, b: seq<Contour>, minArea: real, maxArea: real)
    ensures Selected(kind, a + b, minArea, maxArea) == Selected(kind, a, minArea, maxArea) + Selected(kind, b, minArea, maxArea)
    ensures |a| == 1 ==> Selected(kind, a, minArea, maxArea) == if Kept(kind, a[0], minArea, maxArea) then a else []
  {
    if |a| == 1 {
      assert a[..0] == [];
    }
    if b == [] {
      assert a + b == a;
    } else {
      var init := b[..|b| - 1];
      var last := b[|b| - 1];
      assert (a + b)[..|a + b| - 1] == a + init;
      SelectedAppend(kind, a, init, minArea, maxArea);
    }
  }

  /** The marks drawn for the kept contours, one per contour, in order. */
  function MarksFor(kind: Kind, kept: seq<Contour>): seq<Mark> {
    seq(|kept|, i requires 0 <= i < |kept| => Mark(kind, kept[i].rect))
  }

  /** A call `sendFireAlert(output, area)` / `sendPersonAlert(output, area)`:
      the kind, the area, and the output image as it is at the call. */
  datatype AlertCall = AlertCall(kind: Kind, area: real, snapshot: Picture)

  /** The alerts a detection loop raises for the kept contours when it
      starts on the picture `before`: the i-th carries the i-th area and
      the picture with every mark up to and including its own. */
  function AlertsFor(kind: Kind, kept: seq<Contour>, before: Picture): seq<AlertCall> {
    seq(|kept|, i requires 0 <= i < |kept| =>
      AlertCall(kind, kept[i].area, Picture(before.base, before.marks + MarksFor(kind, kept[..i + 1]))))
  }

  /** The output image `out`, drawn on in place. */
  class Canvas {
    var base: Frame
    var marks: seq<Mark>

    /** `heatmap.copy()` */
    constructor Copy(f: Frame)
      ensures base == f && marks == []
    {
      base := f;
      marks := [];
    }

    function Snapshot(): Picture
      reads this
    {
      Picture(base, marks)
    }

    /** `drawRectangle` then `putText` with the kind's label and colour. */
    method DrawBox(kind: Kind, rect: Rect)
      modifies this
      ensures base == old(base)
      ensures marks == old(marks) + [Mark(kind, rect)]
    {
      marks := marks + [Mark(kind, rect)];
    }
  }

  lemma MarksForSnoc(kind: Kind, kept: seq<Contour>, c: Contour)
    ensures MarksFor(kind, kept + [c]) == MarksFor(kind, kept) + [Mark(kind, c.rect)]
  {
  }

  lemma AlertsForSnoc(kind: Kind, kept: seq<Contour>, c: Contour, before: Picture)
    ensures AlertsFor(kind, kept + [c], before)
         == AlertsFor(kind, kept, before)
            + [AlertCall(kind, c.area, Picture(before.base, before.marks + MarksFor(kind, kept + [c])))]
  {
    var k := kept + [c];
    var lhs := AlertsFor(kind, k, before);
    var rhs := AlertsFor(kind, kept, before)
               + [AlertCall(kind, c.area, Picture(before.base, before.marks + MarksFor(kind, k)))];
    forall i | 0 <= i < |lhs| ensures lhs[i] == rhs[i] {
      if i < |kept| {
        assert k[..i + 1] == kept[..i + 1];
      } else {
        assert k[..i + 1] == k;
      }
    }
  }

  /** detectFire / detectPerson: for each contour in order, skip it unless
      the kind's gate keeps it, otherwise draw its box on `out` and, when
      the entry point sends alerts, raise its alert with `out` as it is
      now. */
  method Detect(kind: Kind, contours: seq<Contour>, out: Canvas, minArea: real, maxArea: real, alerting: bool)
    returns (alerts: seq<AlertCall>)
    modifies out
    ensures out.base == old(out.base)
    ensures out.marks == old(out.marks) + MarksFor(kind, Selected(kind, contours, minArea, maxArea))
    ensures alerts == if alerting then AlertsFor(kind, Selected(kind, contours, minArea, maxArea), old(out.Snapshot())) else []
  {
    ghost var before := out.Snapshot();
    ghost var kept: seq<Contour> := [];
    alerts := [];
    for i := 0 to |contours|
      invariant kept == Selected(kind, contours[..i], minArea, maxArea)
      invariant out.base == before.base
      invariant out.marks == before.marks + MarksFor(kind, kept)
      invariant alerts == if alerting then AlertsFor(kind, kept, before) else []
    {
      var c := contours[i];
      assert contours[..i + 1][..i] == contours[..i];
      if Kept(kind, c, minArea, maxArea) {
        out.DrawBox(kind, c.rect);
        MarksForSnoc(kind, kept, c);
        AlertsForSnoc(kind, kept, c, before);
        kept := kept + [c];
        if alerting {
          alerts := alerts + [AlertCall(kind, c.area, out.Snapshot())];
        }
      }
    }
    assert contours[..|contours|] == contours;
  }

  /** Parameters of processFrame. */
  datatype Params = Params(personPercentile: int, fireThreshold: int, minArea: real, maxArea: real)

  /** The values every entry point passes. */
  const CONFIGURED: Params :=
    Params(Config.PERSON_PERCENTILE, Config.FIRE_THRESHOLD_ABS, Config.MIN_AREA, Config.MAX_AREA)

  /** `plane.threshold(t, 255, THRESH_BINARY)`: a pixel is set when it is
      strictly above t. */
  function ThreshBinary(plane: seq<int>, t: int): Mask {
    seq(|plane|, i requires 0 <= i < |plane| => plane[i] > t)
  }

  /** The red plane of the frame's heat map, the detection signal. */
  function RedOf(frame: Frame, vision: Vision): seq<int> {
    vision.redPlane(vision.heatmap(frame))
  }

  /** What processFrame needs of its caller: the percentile index lies inside the red plane. */
  predicate Processable(frame: Frame, vision: Vision, params: Params) {
    Percentile.InRange(params.personPercentile, |RedOf(frame, vision)|)
  }

  /** The adaptive person threshold, recomputed for every processed frame. */
  function PersonThreshold(frame: Frame, vision: Vision, params: Params): int
    requires Processable(frame, vision, params)
  {
    Percentile.Percentile(RedOf(frame, vision), params.personPercentile)
  }

  function FireKept(frame: Frame, vision: Vision, params: Params): seq<Contour> {
    Selected(Fire, vision.contours(ThreshBinary(RedOf(frame, vision), params.fireThreshold)), params.minArea, params.maxArea)
  }

  function PersonKept(frame: Frame, vision: Vision, params: Params): seq<Contour>
    requires Processable(frame, vision, params)
  {
    Selected(Person, vision.contours(ThreshBinary(RedOf(frame, vision), PersonThreshold(frame, vision, params))),
             params.minArea, params.maxArea)
  }

  /** The image processFrame returns: the heat map with every fire box,
      then every person box. */
  function Annotated(frame: Frame, vision: Vision, params: Params): Picture
    requires Processable(frame, vision, params)
  {
    Picture(vision.heatmap(frame),
            MarksFor(Fire, FireKept(frame, vision, params)) + MarksFor(Person, PersonKept(frame, vision, params)))
  }

  /** The alerts processFrame raises, fire first. */
  function FrameAlerts(frame: Frame, vision: Vision, params: Params, alerting: bool): seq<AlertCall>
    requires Processable(frame, vision, params)
  {
    var heat := vision.heatmap(frame);
    var fire := FireKept(frame, vision, params);
    if alerting then
      AlertsFor(Fire, fire, Picture(heat, []))
      + AlertsFor(Person, PersonKept(frame, vision, params), Picture(heat, MarksFor(Fire, fire)))
    else []
  }

  /** processFrame: masks from the red plane (person at the adaptive
      threshold, fire at the absolute one), then the fire loop and the
      person loop on a fresh copy of the heat map, which is returned. */
  method ProcessFrame(frame: Frame, vision: Vision, params: Params, alerting: bool)
    returns (out: Canvas, alerts: seq<AlertCall>)
    requires Processable(frame, vision, params)
    ensures fresh(out)
    ensures out.Snapshot() == Annotated(frame, vision, params)
    ensures alerts == FrameAlerts(frame, vision, params, alerting)
  {
    var heatmap := vision.heatmap(frame);
    var red := vision.redPlane(heatmap);
    var personThresh := Percentile.Percentile(red, params.personPercentile);
    var maskPerson := ThreshBinary(red, personThresh);
    var maskFire := ThreshBinary(red, params.fireThreshold);
    var contoursPerson := vision.contours(maskPerson);
    var contoursFire := vision.contours(maskFire);
    out := new Canvas.Copy(heatmap);
    assert out.Snapshot() == Picture(heatmap, []);
    var fireAlerts := Detect(Fire, contoursFire, out, params.minArea, params.maxArea, alerting);
    var personAlerts := Detect(Person, contoursPerson, out, params.minArea, params.maxArea, alerting);
    assert [] + MarksFor(Fire, FireKept(frame, vision, params)) == MarksFor(Fire, FireKept(frame, vision, params));
    alerts := fireAlerts + personAlerts;
  }

  /** For whole-pixel sides the aspect gate is `10 * height > 7 * width`:
      because of the epsilon an aspect of exactly 0.7 is rejected. */
  lemma AspectGateIsIntegral(r: Rect)
    ensures Aspect(r) >= PERSON_ASPECT_MIN <==> 10 * r.height > 7 * r.width
  {
    var h, w := r.height as real, r.width as real;
    var d := w + EPSILON;
    assert PERSON_ASPECT_MIN * d == 7.0 / 10.0 * w + 7.0 / 10000000.0;
    if 10 * r.height > 7 * r.width {
      assert 10.0 * h >= 7.0 * w + 1.0;
      DivAtLeast(h, d, PERSON_ASPECT_MIN);
    } else {
      assert 10.0 * h <= 7.0 * w;
      DivBelow(h, d, PERSON_ASPECT_MIN);
    }
  }

  lemma DivAtLeast(h: real, d: real, c: real)
    requires d > 0.0 && c * d <= h
    ensures c <= h / d
  {
    var q := h / d;
    assert q * d == h;
    assert (q - c) * d == h - c * d;
    if q < c { assert (q - c) * d < 0.0; }
  }

  lemma DivBelow(h: real, d: real, c: real)
    requires d > 0.0 && h < c * d
    ensures h / d < c
  {
    var q := h / d;
    assert q * d == h;
    assert (c - q) * d == c * d - h;
  }

  /** The area bounds are inclusive at both ends and fire has no ceiling;
      a box 20 high and 10 wide passes the aspect test, 10 x 20 and 7 x 10
      do not. */
  lemma GateBoundaries()
    ensures var tall := Rect(0, 0, 10, 20);
      && !PersonGate(Contour(49.0, tall), Config.MIN_AREA, Config.MAX_AREA)
      && PersonGate(Contour(50.0, tall), Config.MIN_AREA, Config.MAX_AREA)
      && PersonGate(Contour(100.0, tall), Config.MIN_AREA, Config.MAX_AREA)
      && PersonGate(Contour(30000.0, tall), Config.MIN_AREA, Config.MAX_AREA)
      && !PersonGate(Contour(30001.0, tall), Config.MIN_AREA, Config.MAX_AREA)
    ensures !PersonGate(Contour(100.0, Rect(0, 0, 20, 10)), Config.MIN_AREA, Config.MAX_AREA)
    ensures !PersonGate(Contour(100.0, Rect(0, 0, 10, 7)), Config.MIN_AREA, Config.MAX_AREA)
    ensures !FireGate(Contour(49.0, Rect(0, 0, 10, 20)), Config.MIN_AREA)
    ensures FireGate(Contour(1000000.0, Rect(0, 0, 2000, 500)), Config.MIN_AREA)
  {
    AspectGateIsIntegral(Rect(0, 0, 10, 20));
    AspectGateIsIntegral(Rect(0, 0, 20, 10));
    AspectGateIsIntegral(Rect(0, 0, 10, 7));
  }

  lemma MarksForPrefix(kind: Kind, kept: seq<Contour>, n: nat)
    requires n <= |kept|
    ensures MarksFor(kind, kept[..n]) == MarksFor(kind, kept)[..n]
  {
  }

  /** Every alert of a processed frame carries the picture as it is right
      after its own box is drawn: the heat map with the first i + 1 marks of
      the final image, the last of them its own. There is one alert per
      mark, so the frame sent with each alert already holds that
      detection's box and all earlier ones, and no later one. */
  lemma AlertSnapshotsArePrefixes(frame: Frame, vision: Vision, params: Params)
    requires Processable(frame, vision, params)
    ensures var pic := Annotated(frame, vision, params);
            var alerts := FrameAlerts(frame, vision, params, true);
            && |alerts| == |pic.marks|
            && forall i :: 0 <= i < |alerts| ==>
                 && alerts[i].snapshot == Picture(pic.base, pic.marks[..i + 1])
                 && pic.marks[i].kind == alerts[i].kind
  {
    var pic := Annotated(frame, vision, params);
    var alerts := FrameAlerts(frame, vision, params, true);
    var fire, person := FireKept(frame, vision, params), PersonKept(frame, vision, params);
    var mf, mp := MarksFor(Fire, fire), MarksFor(Person, person);
    assert pic.marks == mf + mp;
    forall i | 0 <= i < |alerts|
      ensures alerts[i].snapshot == Picture(pic.base, pic.marks[..i + 1])
      ensures pic.marks[i].kind == alerts[i].kind
    {
      if i < |fire| {
        MarksForPrefix(Fire, fire, i + 1);
        assert [] + MarksFor(Fire, fire[..i + 1]) == (mf + mp)[..i + 1];
      } else {
        var j := i - |fire|;
        MarksForPrefix(Person, person, j + 1);
        assert mf + MarksFor(Person, person[..j + 1]) == (mf + mp)[..i + 1];
      }
    }
  }

  /** Fire detections and their alerts all come before any person detection. */
  lemma FireAlertsFirst(frame: Frame, vision: Vision, params: Params)
    requires Processable(frame, vision, params)
    ensures var alerts := FrameAlerts(frame, vision, params, true);
            && |alerts| == |FireKept(frame, vision, params)| + |PersonKept(frame, vision, params)|
            && forall i, j :: 0 <= i < j < |alerts| && alerts[j].kind == Fire ==> alerts[i].kind == Fire
  {
  }

  /** A plane of 8-bit values. */
  ghost predicate EightBit(plane: seq<int>) {
    forall i :: 0 <= i < |plane| ==> 0 <= plane[i] <= 255
  }

  /** As written the fire mask thresholds at 255 with THRESH_BINARY, which
      sets a pixel only when it is strictly above 255: on an 8-bit plane no
      pixel is ever set, so as long as the library finds no contour in an
      empty mask, no fire is drawn or alerted, whatever the frame. */
  lemma FireNeverDetectedAsWritten(frame: Frame, vision: Vision)
    requires EightBit(RedOf(frame, vision))
    requires vision.contours(seq(|RedOf(frame, vision)|, i => false)) == []
    ensures forall i :: 0 <= i < |RedOf(frame, vision)| ==> !ThreshBinary(RedOf(frame, vision), Config.FIRE_THRESHOLD_ABS)[i]
    ensures FireKept(frame, vision, CONFIGURED) == []
  {
    var red := RedOf(frame, vision);
    assert ThreshBinary(red, Config.FIRE_THRESHOLD_ABS) == seq(|red|, i => false);
  }

  /** The threshold that selects exactly the maximum-intensity pixels. */
  const INTENDED_FIRE_THRESHOLD: int := Config.FIRE_THRESHOLD_ABS - 1

  /** With the threshold one below 255, THRESH_BINARY sets exactly the
      pixels at 255, the "only maximum-intensity pixels" fire signal. */
  lemma FireMaskAtIntendedThreshold(plane: seq<int>)
    requires EightBit(plane)
    ensures forall i :: 0 <= i < |plane| ==> (ThreshBinary(plane, INTENDED_FIRE_THRESHOLD)[i] <==> plane[i] == 255)
  {
  }

  /** The configured parameters with the fire threshold corrected. */
  const CORRECTED: Params := CONFIGURED.(fireThreshold := INTENDED_FIRE_THRESHOLD)

  /** With the corrected threshold, the fire loop keeps exactly the fire
      contours the library finds in the mask of the maximum-intensity
      pixels of the red plane. */
  lemma FireDetectedAtIntendedThreshold(frame: Frame, vision: Vision)
    requires EightBit(RedOf(frame, vision))
    ensures var red := RedOf(frame, vision);
            FireKept(frame, vision, CORRECTED)
              == Selected(Fire, vision.contours(seq(|red|, i requires 0 <= i < |red| => red[i] == 255)),
                          Config.MIN_AREA, Config.MAX_AREA)
  {
    var red := RedOf(frame, vision);
    FireMaskAtIntendedThreshold(red);
    assert ThreshBinary(red, CORRECTED.fireThreshold) == seq(|red|, i requires 0 <= i < |red| => red[i] == 255);
  }

  /** On a plane whose pixels all have one value v the person threshold is
      v, and since THRESH_BINARY is strict the person mask is empty. */
  lemma UniformPlaneGivesEmptyPersonMask(frame: Frame, vision: Vision, params: Params, v: int)
    requires Processable(frame, vision, params)
    requires forall i :: 0 <= i < |RedOf(frame, vision)| ==> RedOf(frame, vision)[i] == v
    ensures PersonThreshold(frame, vision, params) == v
    ensures forall i :: 0 <= i < |RedOf(frame, vision)| ==> !ThreshBinary(RedOf(frame, vision), PersonThreshold(frame, vision, params))[i]
  {
  }
}
