/** The main loop shared by every entry point: read a frame, skip empty
    reads, count the others, write every frame whose count is not a
    multiple of N unchanged and process the rest, and on an exception stop
    and release the capture device and the video writer. The camera's
    endless stream is modelled as a finite sequence of reads. */
module Sampler {
  import opened Imaging
  import opened Classifier
  import Config

  /** One pass of the loop as seen from `capThermal.read()`: an empty
      frame, a captured frame, or an exception thrown in the iteration
      before anything is counted or written. */
  datatype Read = Empty | Captured(frame: Frame) | Raised

  /** The number of reads the loop consumes before an exception stops it:
      the index of the first raising read, or every read. */
  function Stop(rs: seq<Read>): (k: nat)
    ensures k <= |rs|
  {
    if rs == [] || rs[0].Raised? then 0 else 1 + Stop(rs[1..])
  }

  /** No read before Stop(rs) raises, and the read at Stop(rs), if any, does. */
  lemma {:induction false} StopSpec(rs: seq<Read>)
    ensures forall i :: 0 <= i < Stop(rs) ==> !rs[i].Raised?
    ensures Stop(rs) < |rs| ==> rs[Stop(rs)].Raised?
  {
    if rs != [] && !rs[0].Raised? {
      StopSpec(rs[1..]);
      forall i | 0 < i < Stop(rs) ensures !rs[i].Raised? {
        assert rs[i] == rs[1..][i - 1];
      }
    }
  }

  /** A read the loop reaches raises exactly when it is the one at Stop(rs). */
  lemma StopAt(rs: seq<Read>, k: nat)
    requires k <= Stop(rs) && k < |rs|
    ensures rs[k].Raised? <==> k == Stop(rs)
  {
    StopSpec(rs);
  }

  /** The captured frames among the reads, in order. */
  function Frames(rs: seq<Read>): (fs: seq<Frame>)
    ensures |fs| <= |rs|
  {
    if rs == [] then []
    else
      var rest := Frames(rs[..|rs| - 1]);
      if rs[|rs| - 1].Captured? then rest + [rs[|rs| - 1].frame] else rest
  }

  /** The loop may hand each captured frame to processFrame. */
  predicate ProcessableReads(rs: seq<Read>, vision: Vision, params: Params) {
    forall i :: 0 <= i < |rs| && rs[i].Captured? ==> Processable(rs[i].frame, vision, params)
  }

  /** processFrame's image, as a function of the frame. Run hands it
      only processable frames; elsewhere it yields the raw frame. */
  function Annotator(vision: Vision, params: Params): Frame -> Picture {
    f => if Processable(f, vision, params) then Annotated(f, vision, params) else Picture(f, [])
  }

  /** processFrame's alerts, as a function of the frame; none for a frame
      Run would not hand it. */
  function Alerter(vision: Vision, params: Params, alerting: bool): Frame -> seq<AlertCall> {
    f => if Processable(f, vision, params) then FrameAlerts(f, vision, params, alerting) else []
  }

  /** annotate and raise give processFrame's image and alerts for the frame f. */
  ghost predicate AgreesOn(f: Frame, vision: Vision, params: Params, alerting: bool,
                           annotate: Frame -> Picture, raise: Frame -> seq<AlertCall>)
  {
    && Processable(f, vision, params)
    && annotate(f) == Annotated(f, vision, params)
    && raise(f) == FrameAlerts(f, vision, params, alerting)
  }

  /** annotate and raise agree with processFrame on every frame read. */
  ghost predicate AgreesWithProcessFrame(rs: seq<Read>, vision: Vision, params: Params, alerting: bool,
                                         annotate: Frame -> Picture, raise: Frame -> seq<AlertCall>)
  {
    forall i {:trigger AgreesOn(rs[i].frame, vision, params, alerting, annotate, raise)} :: 0 <= i < |rs| && rs[i].Captured? ==>
      AgreesOn(rs[i].frame, vision, params, alerting, annotate, raise)
  }

  /** What `outThermal.write` receives for the frame counted as `count`:
      the raw frame, or the processed image when count is a multiple of n. */
  function Output(f: Frame, count: nat, n: nat, processed: Picture): Picture
    requires n > 0
  {
    if count % n != 0 then Picture(f, []) else processed
  }

  /** The alerts raised for the frame counted as `count`: none when it is
      passed through raw. */
  function OutputAlerts(count: nat, n: nat, raised: seq<AlertCall>): seq<AlertCall>
    requires n > 0
  {
    if count % n != 0 then [] else raised
  }

  /** Everything written for the frames fs when the counter started at c0. */
  function Recording(fs: seq<Frame>, c0: nat, n: nat, annotate: Frame -> Picture): seq<Picture>
    requires n > 0
  {
    if fs == [] then []
    else
      Recording(fs[..|fs| - 1], c0, n, annotate) + [Output(fs[|fs| - 1], c0 + |fs|, n, annotate(fs[|fs| - 1]))]
  }

  /** Every alert raised for the frames fs when the counter started at c0. */
  function AlertLog(fs: seq<Frame>, c0: nat, n: nat, raise: Frame -> seq<AlertCall>): seq<AlertCall>
    requires n > 0
  {
    if fs == [] then []
    else
      AlertLog(fs[..|fs| - 1], c0, n, raise) + OutputAlerts(c0 + |fs|, n, raise(fs[|fs| - 1]))
  }

  /** The state main() keeps across iterations. */
  class Session {
    var frameCount: nat
    var written: seq<Picture>
    var alerts: seq<AlertCall>
    var captureOpen: bool
    var writerOpen: bool

    /** The state on entry to the loop: the camera passed its test read
        and the writer is open. */
    constructor Open()
      ensures frameCount == 0 && written == [] && alerts == []
      ensures captureOpen && writerOpen
    {
      frameCount := 0;
      written := [];
      alerts := [];
      captureOpen := true;
      writerOpen := true;
    }

    /** One iteration of the loop body, on the read rs[k]; `broke` says the
        exception ended the loop. annotate and raise agree with
        processFrame on the frames read. */
    method Step(rs: seq<Read>, k: nat, n: nat, vision: Vision, params: Params, alerting: bool,
                ghost annotate: Frame -> Picture, ghost raise: Frame -> seq<AlertCall>) returns (broke: bool)
      requires k < |rs| && n > 0
      requires AgreesWithProcessFrame(rs, vision, params, alerting, annotate, raise)
      modifies this
      ensures broke <==> rs[k].Raised?
      ensures captureOpen == old(captureOpen) && writerOpen == old(writerOpen)
      ensures !rs[k].Captured? ==> frameCount == old(frameCount) && written == old(written) && alerts == old(alerts)
      ensures rs[k].Captured? ==>
        && frameCount == old(frameCount) + 1
        && written == old(written) + [Output(rs[k].frame, frameCount, n, annotate(rs[k].frame))]
        && alerts == old(alerts) + OutputAlerts(frameCount, n, raise(rs[k].frame))
    {
      match rs[k]
      case Empty =>
        broke := false;
      case Raised =>
        broke := true;
      case Captured(f) =>
        broke := false;
        assert AgreesOn(f, vision, params, alerting, annotate, raise);
        frameCount := frameCount + 1;
        if frameCount % n != 0 {
          written := written + [Picture(f, [])];
        } else {
          var out, frameAlerts := ProcessFrame(f, vision, params, alerting);
          written := written + [out.Snapshot()];
          alerts := alerts + frameAlerts;
        }
    }

    /** main()'s `while (true)` loop: it ends at the first exception, or
        when the reads run out; k is the number of reads consumed. The loop
        is proved for processing steps annotate and raise that agree with
        processFrame on every frame read. */
    method Loop(rs: seq<Read>, n: nat, vision: Vision, params: Params, alerting: bool,
                ghost annotate: Frame -> Picture, ghost raise: Frame -> seq<AlertCall>) returns (k: nat)
      requires n > 0
      requires AgreesWithProcessFrame(rs, vision, params, alerting, annotate, raise)
      modifies this
      ensures k == Stop(rs)
      ensures captureOpen == old(captureOpen) && writerOpen == old(writerOpen)
      ensures Tracks(rs[..k], old(frameCount), old(written), old(alerts), frameCount, written, alerts, n, annotate, raise)
    {
      k := 0;
      while k < |rs|
        invariant k <= Stop(rs)
        invariant Tracks(rs[..k], old(frameCount), old(written), old(alerts), frameCount, written, alerts, n, annotate, raise)
        invariant captureOpen == old(captureOpen) && writerOpen == old(writerOpen)
      {
        StopAt(rs, k);
        ghost var fc, w, al := frameCount, written, alerts;
        var broke := Step(rs, k, n, vision, params, alerting, annotate, raise);
        if broke {
          break;
        }
        TracksRead(rs, k, old(frameCount), old(written), old(alerts), fc, w, al, n, annotate, raise);
        k := k + 1;
      }
    }

    /** main(): the loop over the reads, then `capThermal.release()` and
        `outThermal.release()`. */
    method Run(rs: seq<Read>, n: nat, vision: Vision, params: Params, alerting: bool)
      requires n > 0
      requires ProcessableReads(rs, vision, params)
      requires captureOpen && writerOpen
      modifies this
      ensures frameCount == old(frameCount) + |Frames(rs[..Stop(rs)])|
      ensures written == old(written) + Recording(Frames(rs[..Stop(rs)]), old(frameCount), n, Annotator(vision, params))
      ensures alerts == old(alerts) + AlertLog(Frames(rs[..Stop(rs)]), old(frameCount), n, Alerter(vision, params, alerting))
      ensures !captureOpen && !writerOpen
    {
      ghost var annotate, raise := Annotator(vision, params), Alerter(vision, params, alerting);
      assert AgreesWithProcessFrame(rs, vision, params, alerting, annotate, raise) by {
        forall i | 0 <= i < |rs| && rs[i].Captured?
          ensures AgreesOn(rs[i].frame, vision, params, alerting, annotate, raise)
        {
        }
      }
      var k := Loop(rs, n, vision, params, alerting, annotate, raise);
      captureOpen := false;
      writerOpen := false;
    }
  }

  lemma {:induction false} FramesSnoc(rs: seq<Read>, r: Read)
    ensures Frames(rs + [r]) == Frames(rs) + (if r.Captured? then [r.frame] else [])
  {
    assert (rs + [r])[..|rs|] == rs;
  }

  /** Frames works read by read: a single read contributes its frame when
      it is a capture and nothing otherwise, and the frames of a
      concatenation are the concatenation of the frames. So the frames
      counted are the captured reads, in order. */
  lemma {:induction false} FramesAppend(a: seq<Read>, b: seq<Read>)
    ensures Frames(a + b) == Frames(a) + Frames(b)
    ensures |a| == 1 ==> Frames(a) == if a[0].Captured? then [a[0].frame] else []
  {
    if |a| == 1 {
      assert a[..0] == [];
    }
    if b == [] {
      assert a + b == a;
    } else {
      var init := b[..|b| - 1];
      assert (a + b)[..|a + b| - 1] == a + init;
      FramesAppend(a, init);
    }
  }

  lemma {:induction false} RecordingSnoc(fs: seq<Frame>, f: Frame, c0: nat, n: nat, annotate: Frame -> Picture)
    requires n > 0
    ensures Recording(fs + [f], c0, n, annotate) == Recording(fs, c0, n, annotate) + [Output(f, c0 + |fs| + 1, n, annotate(f))]
  {
    assert (fs + [f])[..|fs|] == fs;
  }

  lemma {:induction false} AlertLogSnoc(fs: seq<Frame>, f: Frame, c0: nat, n: nat, raise: Frame -> seq<AlertCall>)
    requires n > 0
    ensures AlertLog(fs + [f], c0, n, raise) == AlertLog(fs, c0, n, raise) + OutputAlerts(c0 + |fs| + 1, n, raise(f))
  {
    assert (fs + [f])[..|fs|] == fs;
  }

  /** The loop's invariant over the reads consumed so far, started from
      counter c0, written frames w0 and alerts a0. */
  ghost predicate Tracks(rs: seq<Read>, c0: nat, w0: seq<Picture>, a0: seq<AlertCall>,
                         fc: nat, w: seq<Picture>, al: seq<AlertCall>,
                         n: nat, annotate: Frame -> Picture, raise: Frame -> seq<AlertCall>)
  {
    && n > 0
    && fc == c0 + |Frames(rs)|
    && w == w0 + Recording(Frames(rs), c0, n, annotate)
    && al == a0 + AlertLog(Frames(rs), c0, n, raise)
  }

  /** A captured frame keeps the loop's invariant: it is counted, written
      and its alerts logged. */
  lemma {:induction false} TracksCapture(rs: seq<Read>, f: Frame, c0: nat, w0: seq<Picture>, a0: seq<AlertCall>,
                      fc: nat, w: seq<Picture>, al: seq<AlertCall>,
                      n: nat, annotate: Frame -> Picture, raise: Frame -> seq<AlertCall>)
    requires Tracks(rs, c0, w0, a0, fc, w, al, n, annotate, raise)
    ensures Tracks(rs + [Captured(f)], c0, w0, a0, fc + 1,
                   w + [Output(f, fc + 1, n, annotate(f))],
                   al + OutputAlerts(fc + 1, n, raise(f)),
                   n, annotate, raise)
  {
    var fs := Frames(rs);
    FramesSnoc(rs, Captured(f));
    assert Frames(rs + [Captured(f)]) == fs + [f];
    RecordingSnoc(fs, f, c0, n, annotate);
    AppendAssoc(w0, Recording(fs, c0, n, annotate), [Output(f, fc + 1, n, annotate(f))]);
    AlertLogSnoc(fs, f, c0, n, raise);
    AppendAssoc(a0, AlertLog(fs, c0, n, raise), OutputAlerts(fc + 1, n, raise(f)));
  }

  /** A read that raises nothing keeps the loop's invariant, whether it
      is a captured frame or an empty one. */
  lemma TracksRead(rs: seq<Read>, k: nat, c0: nat, w0: seq<Picture>, a0: seq<AlertCall>,
                   fc: nat, w: seq<Picture>, al: seq<AlertCall>,
                   n: nat, annotate: Frame -> Picture, raise: Frame -> seq<AlertCall>)
    requires k < |rs| && !rs[k].Raised?
    requires Tracks(rs[..k], c0, w0, a0, fc, w, al, n, annotate, raise)
    ensures rs[k].Captured? ==>
      Tracks(rs[..k + 1], c0, w0, a0, fc + 1,
             w + [Output(rs[k].frame, fc + 1, n, annotate(rs[k].frame))],
             al + OutputAlerts(fc + 1, n, raise(rs[k].frame)),
             n, annotate, raise)
    ensures !rs[k].Captured? ==> Tracks(rs[..k + 1], c0, w0, a0, fc, w, al, n, annotate, raise)
  {
    assert rs[..k + 1] == rs[..k] + [rs[k]];
    if rs[k].Captured? {
      TracksCapture(rs[..k], rs[k].frame, c0, w0, a0, fc, w, al, n, annotate, raise);
    } else {
      FramesSnoc(rs[..k], rs[k]);
    }
  }

  lemma AppendAssoc<T>(a: seq<T>, b: seq<T>, c: seq<T>)
    ensures (a + b) + c == a + (b + c)
  {
  }

  /** One write per captured frame: the i-th write is the i-th captured
      frame, passed through raw unless its count c0 + i + 1 is a multiple
      of n, and processed otherwise. */
  lemma {:induction false} RecordingShape(fs: seq<Frame>, c0: nat, n: nat, annotate: Frame -> Picture)
    requires n > 0
    ensures |Recording(fs, c0, n, annotate)| == |fs|
    ensures forall i :: 0 <= i < |fs| ==> Recording(fs, c0, n, annotate)[i] == Output(fs[i], c0 + i + 1, n, annotate(fs[i]))
  {
    if fs != [] {
      var init := fs[..|fs| - 1];
      RecordingShape(init, c0, n, annotate);
      forall i | 0 <= i < |init| ensures init[i] == fs[i] { }
    }
  }

  /** With the configured N = 2 and the counter starting at 0, exactly the
      2nd, 4th, 6th ... captured frames are processed; the others are
      written raw. */
  lemma EveryOtherFrameProcessed(fs: seq<Frame>, annotate: Frame -> Picture)
    ensures |Recording(fs, 0, Config.PROCESS_EVERY_N_FRAMES, annotate)| == |fs|
    ensures forall i :: 0 <= i < |fs| ==>
      Recording(fs, 0, Config.PROCESS_EVERY_N_FRAMES, annotate)[i]
        == if i % 2 == 1 then annotate(fs[i]) else Picture(fs[i], [])
  {
    var n := Config.PROCESS_EVERY_N_FRAMES;
    RecordingShape(fs, 0, n, annotate);
    forall i | 0 <= i < |fs|
      ensures Recording(fs, 0, n, annotate)[i] == if i % 2 == 1 then annotate(fs[i]) else Picture(fs[i], [])
    {
      assert Recording(fs, 0, n, annotate)[i] == Output(fs[i], i + 1, n, annotate(fs[i]));
      assert (i + 1) % n == 0 <==> i % 2 == 1;
    }
  }

  /** A processing step that raises nothing leaves the log empty. */
  lemma {:induction false} QuietLog(fs: seq<Frame>, c0: nat, n: nat, raise: Frame -> seq<AlertCall>)
    requires n > 0
    requires forall j :: 0 <= j < |fs| ==> raise(fs[j]) == []
    ensures AlertLog(fs, c0, n, raise) == []
  {
    if fs != [] {
      var init := fs[..|fs| - 1];
      forall j | 0 <= j < |init| ensures raise(init[j]) == [] {
        assert init[j] == fs[j];
      }
      QuietLog(init, c0, n, raise);
    }
  }

  /** The standalone detector sends no alerts: its log stays empty. */
  lemma SilentEntryPointRaisesNothing(fs: seq<Frame>, c0: nat, n: nat, vision: Vision, params: Params)
    requires n > 0
    ensures AlertLog(fs, c0, n, Alerter(vision, params, false)) == []
  {
    var raise := Alerter(vision, params, false);
    forall j | 0 <= j < |fs| ensures raise(fs[j]) == [] {
      if Processable(fs[j], vision, params) {
        assert raise(fs[j]) == FrameAlerts(fs[j], vision, params, false);
      }
    }
    QuietLog(fs, c0, n, raise);
  }

  /** An empty read (or any read that is not a captured frame) contributes
      no frame: it is neither counted nor written. */
  lemma {:induction false} FramesSkipEmpty(a: seq<Read>, b: seq<Read>)
    ensures Frames(a + [Empty] + b) == Frames(a + b)
  {
    if b == [] {
      assert a + [Empty] + b == a + [Empty];
      assert a + b == a;
      FramesSnoc(a, Empty);
    } else {
      var b' := b[..|b| - 1];
      var r := b[|b| - 1];
      assert a + [Empty] + b == (a + [Empty] + b') + [r];
      assert a + b == (a + b') + [r];
      FramesSnoc(a + [Empty] + b', r);
      FramesSnoc(a + b', r);
      FramesSkipEmpty(a, b');
    }
  }

  /** The loop ends at the first exception: nothing read after it is
      consumed. */
  lemma {:induction false} StopAtFirstRaise(a: seq<Read>, b: seq<Read>)
    requires forall i :: 0 <= i < |a| ==> !a[i].Raised?
    ensures Stop(a + [Raised] + b) == |a|
  {
    if a != [] {
      assert (a + [Raised] + b)[1..] == a[1..] + [Raised] + b;
      StopAtFirstRaise(a[1..], b);
    }
  }
}
