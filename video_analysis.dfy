/**
 * `analyze_video_emotions`: scan a video frame by frame, send every
 * interval-th frame to the detector, keep the top emotion of the first face
 * found in it, and count the labels kept.
 */
module VideoAnalysis {
  import opened Sampler
  import opened Classifier
  import opened Aggregator

  /**
   * A video source: whether it opened, its declared frame rate already
   * truncated to an integer, and the frames its reader yields in order.
   */
  datatype Capture<F> = Capture(isOpened: bool, fps: int, frames: seq<F>)

  /** The two ways a call ends in an exception, with the index of the frame at fault. */
  datatype Failure =
    | DetectorRaised(frame: nat, message: string)  // `detect_emotions` raised
    | NoEmotionScores(frame: nat)                  // `max` over the first face's empty emotion dict

  /** How a call ends: the label counts it returns, or the exception that escapes it. */
  datatype Outcome = Completed(tally: map<Label, nat>) | Aborted(failure: Failure)

  /** What a sampled frame at index `i` contributes, given the detector's answer `d`. */
  datatype Sample = NoFace | Top(emotion: Label) | Fault(failure: Failure)

  function Classify(i: nat, d: Detection): (s: Sample)
    ensures s.NoFace? <==> d.Faces? && |d.faces| == 0
    ensures s.Top? <==> d.Faces? && |d.faces| > 0 && |d.faces[0].emotions| > 0
    ensures s.Top? ==> exists t :: IsTopAt(d.faces[0].emotions, t) && d.faces[0].emotions[t].0 == s.emotion
    ensures s.Fault? ==> s.failure.frame == i
    ensures d.Raised? ==> s == Fault(DetectorRaised(i, d.message))
    ensures d.Faces? && |d.faces| > 0 && |d.faces[0].emotions| == 0 ==> s == Fault(NoEmotionScores(i))
  {
    match d
    case Raised(message) => Fault(DetectorRaised(i, message))
    case Faces(faces) =>
      if |faces| == 0 then NoFace
      else
        match TopEmotion(faces[0])
        case None => Fault(NoEmotionScores(i))
        case Some(l) => Top(l)
  }

  /** The state of the scan after some frames: the labels kept so far, or the failure that ended it. */
  datatype Progress = Scanning(labels: seq<Label>) | Stopped(failure: Failure)

  /** The state of the scan after the first `n` frames, with sampling interval `k`. */
  function Scan<F>(frames: seq<F>, k: int, detect: F -> Detection, n: nat): Progress
    requires k != 0 && n <= |frames|
  {
    if n == 0 then Scanning([])
    else
      match Scan(frames, k, detect, n - 1)
      case Stopped(e) => Stopped(e)
      case Scanning(labels) =>
        if PyMod(n - 1, k) != 0 then Scanning(labels)
        else
          match Classify(n - 1, detect(frames[n - 1]))
          case NoFace => Scanning(labels)
          case Top(l) => Scanning(labels + [l])
          case Fault(e) => Stopped(e)
  }

  /** What `analyze_video_emotions` returns for `cap`, or the exception it raises. */
  function Analyze<F>(cap: Capture<F>, detect: F -> Detection): Outcome
  {
    if !cap.isOpened then Completed(map[])
    else
      match Scan(cap.frames, FrameInterval(cap.fps), detect, |cap.frames|)
      case Stopped(e) => Aborted(e)
      case Scanning(labels) => Completed(if labels == [] then map[] else Tally(labels))
  }

  /**
   * The scan loop: read frames until the reader runs dry, send every sampled
   * frame to the detector, keep one label per sampled frame with a face, and
   * count them. Besides the outcome it reports, as ghost values, the frames
   * the reader yielded, the indices handed to the detector, and whether the
   * capture was released (only on normal return: an exception skips it).
   */
  method AnalyzeVideoEmotions<F>(cap: Capture<F>, detect: F -> Detection)
    returns (outcome: Outcome, ghost yielded: seq<F>, ghost calls: seq<nat>, ghost released: bool)
    ensures outcome == Analyze(cap, detect)
    ensures |yielded| <= |cap.frames| && yielded == cap.frames[..|yielded|]
    ensures outcome.Completed? ==> yielded == (if cap.isOpened then cap.frames else [])
    ensures calls == Sampled(|yielded|, FrameInterval(cap.fps))
    ensures outcome.Aborted? ==> |yielded| == outcome.failure.frame + 1
    ensures outcome.Aborted? ==> |calls| > 0 && calls[|calls| - 1] == outcome.failure.frame
    ensures released <==> outcome.Completed?
  {
    var emotions: seq<Label> := [];
    var frameInterval := FrameInterval(cap.fps);
    var frameCount: nat := 0;
    yielded, calls, released := [], [], false;
    while cap.isOpened
      invariant frameCount <= |cap.frames|
      invariant !cap.isOpened ==> frameCount == 0
      invariant yielded == cap.frames[..frameCount]
      invariant calls == Sampled(frameCount, frameInterval)
      invariant Scan(cap.frames, frameInterval, detect, frameCount) == Scanning(emotions)
      decreases |cap.frames| - frameCount
    {
      if frameCount == |cap.frames| {
        break;  // the reader has no more frames
      }
      var frame := cap.frames[frameCount];
      assert cap.frames[..frameCount + 1] == cap.frames[..frameCount] + [frame];
      ScanStep(cap.frames, frameInterval, detect, frameCount);
      yielded := yielded + [frame];
      if PyMod(frameCount, frameInterval) == 0 {
        var results := detect(frame);
        assert Sampled(frameCount + 1, frameInterval) == calls + [frameCount];
        calls := calls + [frameCount];
        match results {
          case Raised(message) =>
            outcome := Aborted(DetectorRaised(frameCount, message));
            ScanStaysStopped(cap.frames, frameInterval, detect, frameCount + 1, |cap.frames|);
            return;
          case Faces(faces) =>
            if |faces| > 0 {
              match TopEmotion(faces[0]) {
                case None =>
                  outcome := Aborted(NoEmotionScores(frameCount));
                  ScanStaysStopped(cap.frames, frameInterval, detect, frameCount + 1, |cap.frames|);
                  return;
                case Some(top) =>
                  emotions := emotions + [top];
              }
            }
        }
      }
      frameCount := frameCount + 1;
    }
    assert cap.isOpened ==> frameCount == |cap.frames|;
    released := true;
    outcome := Completed(if emotions == [] then map[] else Tally(emotions));
  }

  /** One more frame of a scan that is still running. */
  lemma ScanStep<F>(frames: seq<F>, k: int, detect: F -> Detection, n: nat)
    requires k != 0 && n < |frames|
    requires Scan(frames, k, detect, n).Scanning?
    ensures
      var labels := Scan(frames, k, detect, n).labels;
      Scan(frames, k, detect, n + 1) ==
        if PyMod(n, k) != 0 then Scanning(labels)
        else
          match Classify(n, detect(frames[n]))
          case NoFace => Scanning(labels)
          case Top(l) => Scanning(labels + [l])
          case Fault(e) => Stopped(e)
  {
  }

  /** Once the scan has stopped on a failure, later frames do not change that. */
  lemma {:induction false} ScanStaysStopped<F>(frames: seq<F>, k: int, detect: F -> Detection, n: nat, m: nat)
    requires k != 0 && n <= m <= |frames|
    requires Scan(frames, k, detect, n).Stopped?
    ensures Scan(frames, k, detect, m) == Scan(frames, k, detect, n)
    decreases m - n
  {
    if n < m {
      assert Scan(frames, k, detect, n + 1) == Scan(frames, k, detect, n);
      ScanStaysStopped(frames, k, detect, n + 1, m);
    }
  }

  /** The detector found at least one face. */
  predicate HasFace(d: Detection)
  {
    d.Faces? && |d.faces| > 0
  }

  /**
   * The sampled indices below `n` whose detection found at least one face,
   * in ascending order: the frames that each contribute one label.
   */
  function FacedFrames<F>(frames: seq<F>, k: int, detect: F -> Detection, n: nat): (w: seq<nat>)
    requires k != 0 && n <= |frames|
    ensures forall i :: i in w <==> 0 <= i < n && PyMod(i, k) == 0 && HasFace(detect(frames[i]))
    ensures forall j :: 0 <= j < |w| ==> w[j] < n
    ensures forall j, j' :: 0 <= j < j' < |w| ==> w[j] < w[j']
  {
    if n == 0 then []
    else
      var i := n - 1;
      FacedFrames(frames, k, detect, i) + (if PyMod(i, k) == 0 && HasFace(detect(frames[i])) then [i] else [])
  }

  /** No sampled frame below `n` makes the detector raise or has a first face without scores. */
  ghost predicate Clean<F>(frames: seq<F>, k: int, detect: F -> Detection, n: nat)
    requires n <= |frames|
    requires k != 0
  {
    forall i :: 0 <= i < n && PyMod(i, k) == 0 ==> !Classify(i, detect(frames[i])).Fault?
  }

  /** How many of the frames at indices `w` have `l` as the top emotion of their first face. */
  function CountTop<F>(frames: seq<F>, detect: F -> Detection, w: seq<nat>, l: Label): nat
    requires forall j :: 0 <= j < |w| ==> w[j] < |frames|
  {
    if w == [] then 0
    else
      var i := w[|w| - 1];
      CountTop(frames, detect, w[..|w| - 1], l) + (if Classify(i, detect(frames[i])) == Top(l) then 1 else 0)
  }

  /** The scan runs to the end exactly when no sampled frame fails. */
  lemma {:induction false} ScanCompletesIff<F>(frames: seq<F>, k: int, detect: F -> Detection, n: nat)
    requires k != 0 && n <= |frames|
    ensures Scan(frames, k, detect, n).Scanning? <==> Clean(frames, k, detect, n)
  {
    if n > 0 {
      var i := n - 1;
      ScanCompletesIff(frames, k, detect, i);
      if !Clean(frames, k, detect, i) {
        var bad :| 0 <= bad < i && PyMod(bad, k) == 0 && Classify(bad, detect(frames[bad])).Fault?;
        assert 0 <= bad < n;
      }
    }
  }

  /**
   * While it runs, the scan has kept one label per sampled frame with a
   * face, in frame order: the top emotion of that frame's first face.
   */
  lemma {:induction false} ScanKeepsFirstFaceTops<F>(frames: seq<F>, k: int, detect: F -> Detection, n: nat)
    requires k != 0 && n <= |frames|
    requires Scan(frames, k, detect, n).Scanning?
    ensures
      var labels, w := Scan(frames, k, detect, n).labels, FacedFrames(frames, k, detect, n);
      && |labels| == |w|
      && forall j :: 0 <= j < |w| ==> Classify(w[j], detect(frames[w[j]])) == Top(labels[j])
  {
    if n > 0 {
      var i := n - 1;
      assert Scan(frames, k, detect, i).Scanning?;
      ScanKeepsFirstFaceTops(frames, k, detect, i);
      var labels, w := Scan(frames, k, detect, i).labels, FacedFrames(frames, k, detect, i);
      if PyMod(i, k) == 0 && HasFace(detect(frames[i])) {
        assert Classify(i, detect(frames[i])).Top?;
        assert Scan(frames, k, detect, n).labels == labels + [Classify(i, detect(frames[i])).emotion];
        assert FacedFrames(frames, k, detect, n) == w + [i];
      } else {
        assert Scan(frames, k, detect, n).labels == labels;
        assert FacedFrames(frames, k, detect, n) == w;
      }
    }
  }

  /**
   * There is no per-frame recovery: the first sampled frame that fails ends
   * the call with that frame's exception, whatever the frames after it hold.
   */
  lemma AnalyzeAbortsAtFirstFault<F>(cap: Capture<F>, detect: F -> Detection, i: nat)
    requires cap.isOpened && i < |cap.frames| && PyMod(i, FrameInterval(cap.fps)) == 0
    requires Classify(i, detect(cap.frames[i])).Fault?
    requires Clean(cap.frames, FrameInterval(cap.fps), detect, i)
    ensures Analyze(cap, detect) == Aborted(Classify(i, detect(cap.frames[i])).failure)
  {
    var k := FrameInterval(cap.fps);
    ScanCompletesIff(cap.frames, k, detect, i);
    ScanStaysStopped(cap.frames, k, detect, i + 1, |cap.frames|);
  }

  /** A call completes exactly when the source did not open or no sampled frame fails. */
  lemma AnalyzeCompletesIff<F>(cap: Capture<F>, detect: F -> Detection)
    ensures Analyze(cap, detect).Completed? <==>
      !cap.isOpened || Clean(cap.frames, FrameInterval(cap.fps), detect, |cap.frames|)
  {
    if cap.isOpened {
      ScanCompletesIff(cap.frames, FrameInterval(cap.fps), detect, |cap.frames|);
    }
  }

  /** Counting labels that correspond one to one with the frames at `w`. */
  lemma {:induction false} CountMatchesLabels<F>(frames: seq<F>, detect: F -> Detection, w: seq<nat>, labels: seq<Label>, l: Label)
    requires |labels| == |w|
    requires forall j :: 0 <= j < |w| ==> w[j] < |frames| && Classify(w[j], detect(frames[w[j]])) == Top(labels[j])
    ensures multiset(labels)[l] == CountTop(frames, detect, w, l)
  {
    if w != [] {
      var m := |w| - 1;
      var w', labels' := w[..m], labels[..m];
      CountMatchesLabels(frames, detect, w', labels', l);
      assert labels == labels' + [labels[m]];
      assert multiset(labels)[l] == multiset(labels')[l] + (if labels[m] == l then 1 else 0);
      assert Classify(w[m], detect(frames[w[m]])) == Top(l) <==> labels[m] == l;
    }
  }

  /**
   * The counts of a completed call: a label is a key exactly when it is the
   * first face's top emotion of some sampled frame, its count is the number
   * of such frames, the counts add up to the number of sampled frames with
   * a face, and the result is `{}` exactly when there is no such frame
   * (always so when the source did not open).
   */
  lemma AnalyzeTally<F>(cap: Capture<F>, detect: F -> Detection)
    requires Analyze(cap, detect).Completed?
    ensures
      var t := Analyze(cap, detect).tally;
      var w := if cap.isOpened then FacedFrames(cap.frames, FrameInterval(cap.fps), detect, |cap.frames|) else [];
      && (forall l :: l in t <==> CountTop(cap.frames, detect, w, l) >= 1)
      && (forall l :: l in t ==> t[l] == CountTop(cap.frames, detect, w, l))
      && Total(t) == |w|
      && (t == map[] <==> w == [])
  {
    var t := Analyze(cap, detect).tally;
    if cap.isOpened {
      var k := FrameInterval(cap.fps);
      var n := |cap.frames|;
      var w := FacedFrames(cap.frames, k, detect, n);
      ScanKeepsFirstFaceTops(cap.frames, k, detect, n);
      var labels := Scan(cap.frames, k, detect, n).labels;
      assert t == if labels == [] then map[] else Tally(labels);
      TallyTotal(labels);
      forall l
        ensures multiset(labels)[l] == CountTop(cap.frames, detect, w, l)
      {
        CountMatchesLabels(cap.frames, detect, w, labels, l);
      }
      if labels != [] {
        assert labels[0] in t;
      }
    }
  }

  /** Two detector answers that agree on failure, on finding faces, and on the first face. */
  predicate SameFirstFace(a: Detection, b: Detection)
  {
    match a
    case Raised(message) => b == Raised(message)
    case Faces(faces) =>
      && b.Faces?
      && (|faces| == 0 <==> |b.faces| == 0)
      && (|faces| > 0 ==> faces[0] == b.faces[0])
  }

  lemma ClassifySeesFirstFace(i: nat, a: Detection, b: Detection)
    requires SameFirstFace(a, b)
    ensures Classify(i, a) == Classify(i, b)
  {
  }

  lemma {:induction false} ScanSeesOnlySampledFirstFaces<F>(frames: seq<F>, k: int, d1: F -> Detection, d2: F -> Detection, n: nat)
    requires k != 0 && n <= |frames|
    requires forall i :: 0 <= i < n && PyMod(i, k) == 0 ==> SameFirstFace(d1(frames[i]), d2(frames[i]))
    ensures Scan(frames, k, d1, n) == Scan(frames, k, d2, n)
  {
    if n > 0 {
      var i := n - 1;
      ScanSeesOnlySampledFirstFaces(frames, k, d1, d2, i);
      if Scan(frames, k, d1, i).Scanning? {
        ScanStep(frames, k, d1, i);
        ScanStep(frames, k, d2, i);
        if PyMod(i, k) == 0 {
          ClassifySeesFirstFace(i, d1(frames[i]), d2(frames[i]));
        }
      }
    }
  }

  /**
   * Frames that are not sampled, and every face after the first, never
   * influence the outcome: two detectors that agree on the first face of
   * every sampled frame give the same result.
   */
  lemma OnlySampledFirstFacesMatter<F>(cap: Capture<F>, d1: F -> Detection, d2: F -> Detection)
    requires forall i :: 0 <= i < |cap.frames| && PyMod(i, FrameInterval(cap.fps)) == 0 ==>
      SameFirstFace(d1(cap.frames[i]), d2(cap.frames[i]))
    ensures Analyze(cap, d1) == Analyze(cap, d2)
  {
    if cap.isOpened {
      ScanSeesOnlySampledFirstFaces(cap.frames, FrameInterval(cap.fps), d1, d2, |cap.frames|);
    }
  }
}
