/**
 * Worked examples of `analyze_video_emotions` on a five-frame video at one
 * frame per second, so that every second frame is sampled. Frames are
 * numbered by their own index.
 */
module Scenarios {
  import opened Sampler
  import opened Classifier
  import opened VideoAnalysis

  const Video: Capture<nat> := Capture(true, 1, [0, 1, 2, 3, 4])

  /**
   * Happy on frames 0 and 2; on frame 4 a tie between sad and happy in the
   * first face and a second, happy face; every unsampled frame raises.
   */
  function Detector(f: nat): Detection
  {
    if f == 0 || f == 2 then Faces([Face([("happy", 0.9), ("sad", 0.1)])])
    else if f == 4 then Faces([Face([("sad", 0.5), ("happy", 0.5)]), Face([("happy", 1.0)])])
    else Raised("not a sampled frame")
  }

  lemma HappyFaceTop()
    ensures TopEmotion(Face([("happy", 0.9), ("sad", 0.1)])) == Some("happy")
  {
    var scores: seq<(Label, real)> := [("happy", 0.9), ("sad", 0.1)];
    assert scores[..1] == [("happy", 0.9)];
    assert ArgMax(scores) == 0;
  }

  lemma TiedFaceTop()
    ensures TopEmotion(Face([("sad", 0.5), ("happy", 0.5)])) == Some("sad")
  {
    var scores: seq<(Label, real)> := [("sad", 0.5), ("happy", 0.5)];
    assert scores[..1] == [("sad", 0.5)];
    assert ArgMax(scores) == 0;
  }

  lemma ScanOfVideo()
    ensures Scan(Video.frames, FrameInterval(1), Detector, 5) == Scanning(["happy", "happy", "sad"])
  {
    var k := FrameInterval(1);
    assert k == 2;
    var frames := Video.frames;
    HappyFaceTop();
    TiedFaceTop();
    assert Classify(0, Detector(frames[0])) == Top("happy");
    assert Classify(2, Detector(frames[2])) == Top("happy");
    assert Classify(4, Detector(frames[4])) == Top("sad");
    ScanStep(frames, k, Detector, 0);
    ScanStep(frames, k, Detector, 1);
    ScanStep(frames, k, Detector, 2);
    ScanStep(frames, k, Detector, 3);
    ScanStep(frames, k, Detector, 4);
  }

  lemma TallyOfLabels()
    ensures Aggregator.Tally(["happy", "happy", "sad"]) == map["happy" := 2, "sad" := 1]
  {
    var labels: seq<Label> := ["happy", "happy", "sad"];
    assert labels[..2] == ["happy", "happy"];
    assert ["happy", "happy"][..1] == ["happy"];
    assert Aggregator.Tally(["happy"]) == map["happy" := 1];
    assert Aggregator.Tally(["happy", "happy"]) == map["happy" := 2];
  }

  /**
   * Frames 1 and 3 are never sent to the detector, the tie goes to the
   * first maximal entry, and the second face on frame 4 is ignored.
   */
  lemma TieAndSecondFace()
    ensures Analyze(Video, Detector) == Completed(map["happy" := 2, "sad" := 1])
  {
    ScanOfVideo();
    TallyOfLabels();
  }

  /** A detector that raises on a sampled frame ends the whole call: no label is counted. */
  lemma RaiseOnSampledFrameAborts()
    ensures Analyze(Video, (f: nat) => if f == 2 then Raised("model error") else Detector(f))
         == Aborted(DetectorRaised(2, "model error"))
  {
    var d := (f: nat) => if f == 2 then Raised("model error") else Detector(f);
    var k := FrameInterval(1);
    assert k == 2;
    assert Scan(Video.frames, k, d, 3) == Stopped(DetectorRaised(2, "model error"));
    ScanStaysStopped(Video.frames, k, d, 3, 5);
  }

  /** A source that does not open yields `{}` whatever the detector does. */
  lemma UnopenedIsEmpty(fps: int, frames: seq<nat>)
    ensures Analyze(Capture(false, fps, frames), Detector) == Completed(map[])
  {
  }
}
