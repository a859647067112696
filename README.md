# Video emotion sampling and counting, in Dafny

This project models `analyze_video_emotions` of the video emotion detection
app in `app.py`. The function opens a video and reads it frame by frame. It
takes two seconds' worth of frames as the sampling interval and sends every
interval-th frame to a facial-emotion detector. For each sampled frame where
the detector finds a face, it keeps the top-scoring emotion of the first face.
At the end it returns a map from each emotion label to the number of frames
it was kept for.

The model is split by the parts of that pipeline:

- `sampler.dfy` (module `Sampler`): the interval `int(fps) or 30`, times 2.
  It also holds Python's floored `%` and the sampled frame indices, with a
  closed form for them.
- `classifier.dfy` (module `Classifier`): what the detector returns. A frame
  gives either a list of faces, each with its ordered `(label, score)` pairs,
  or an exception. This module also holds the argmax that Python's
  `max(d, key=d.get)` computes.
- `aggregator.dfy` (module `Aggregator`): the `value_counts` reduction as a
  label-to-count map, and the sum of its counts.
- `video_analysis.dfy` (module `VideoAnalysis`): the capture, the scan as a
  specification function (`Scan`, `Analyze`), and the `while` loop as the
  method `AnalyzeVideoEmotions`. The method is proved equal to `Analyze`, and
  lemmas relate `Analyze` to a reference description of which frames count.
- `scenarios.dfy` (module `Scenarios`): worked examples on a five-frame video.

Modelling choices:

- The capture is a value holding an "opened" flag, the declared frame rate
  (already truncated to an integer by `int`), and the finite sequence of
  frames that `read` yields. The frame type is a type parameter.
- The detector is a fixed, total function from a frame to a `Detection`.
  A `Detection` is either `Faces(faces)` or `Raised(message)`.
- Scores are `real`s and are only compared with each other.
- Two conditions end a call with an exception: the detector raising, and
  `max` over a first face whose emotion dict is empty (Python raises
  `ValueError`). Both are modelled as the outcome `Aborted`, carrying the
  index of the frame at fault. Nothing in the function catches either one;
  only the UI does.
- `cap.release()` is the ghost out-parameter `released` of the method. It is
  true exactly when the call returns normally.

The model follows the code in four places where one might expect
otherwise:

- The interval has no floor at 1. It is `2 * rate`, which is never 0.
- A negative truncated frame rate gives a negative interval. Python's `%`
  then still samples the multiples of its absolute value.
- A failing detector call is not skipped. It ends the whole analysis.
- A source that cannot be opened is not a failure. The loop does not run,
  and the result is `{}`.

## Model

| member | source | states |
|---|---|---|
| `Sampler.FrameInterval` | app.py:16-17 | the interval is 60 when the truncated rate is 0 and twice the rate otherwise; it is never 0 and at least 2 in absolute value |
| `Sampler.PyMod` | app.py:24 | Python's `%`: the result has the divisor's sign, lies strictly inside the divisor's range, is 0 exactly when the dividend is a multiple of the divisor's absolute value, and differs from the dividend by such a multiple |
| `Sampler.Sampled` | app.py:24-25 | the indices below n sent to the detector are exactly those with `index % k == 0`, listed in strictly ascending order |
| `Sampler.SampledClosedForm` | app.py:20-25 | there are ceil(n / abs(k)) sampled indices and the j-th one is j * abs(k) |
| `Sampler.SampledAtThirtyFps` | app.py:16-25 | a video of 241 to 300 frames at 30 fps is sampled at exactly frames 0, 60, 120, 180, 240 |
| `Classifier.ArgMax` | app.py:27 | the index picked holds a score at least every other score, and every earlier score is strictly smaller (ties go to the first maximal entry in order) |
| `Classifier.TopEmotion` | app.py:27 | None exactly when the face has no scores; otherwise a label whose entry is the first maximal one |
| `Classifier.TopEmotionOfDict` | app.py:27 | on a face with distinct labels, as a dict has, every entry carrying the picked label is the first maximal entry, so the label is the one `max(d, key=d.get)` returns |
| `Aggregator.Tally` | app.py:32 | the keys are exactly the labels that occur; each count is the label's number of occurrences, so at least 1 |
| `Aggregator.TotalRemove` | app.py:32 | the sum of a tally's counts can be split at any key |
| `Aggregator.TallyTotal` | app.py:32 | the counts of a tally sum to the number of labels it was built from |
| `VideoAnalysis.Classify` | app.py:25-28 | a sampled frame adds a label exactly when the detector found a face whose emotion dict is not empty; the label is the first face's first maximal entry; no face adds nothing; a raise with message m is `DetectorRaised(i, m)` and an empty first dict is `NoEmotionScores(i)`, both at that frame i |
| `VideoAnalysis.AnalyzeVideoEmotions` | app.py:13-32 | the loop returns what `Analyze` defines; the reader yielded a prefix of the frames, read once each and in order, and all of them on completion; the detector was called on exactly the sampled indices among the frames read, in ascending order; on an exception at frame i, exactly frames 0..i were read and i was the last index sent to the detector; the capture is released exactly on normal return |
| `VideoAnalysis.ScanStaysStopped` | app.py:25-27 | once a sampled frame has failed, no later frame changes the outcome of the scan |
| `VideoAnalysis.FacedFrames` | app.py:24-26 | reference: exactly the sampled indices whose detection found at least one face, in ascending order |
| `VideoAnalysis.ScanCompletesIff` | app.py:20-29 | the scan reaches the end of the video if and only if no sampled frame fails |
| `VideoAnalysis.ScanKeepsFirstFaceTops` | app.py:24-29 | a running scan has kept one label per sampled frame with a face, in frame order, and that label is the top emotion of the frame's first face |
| `VideoAnalysis.AnalyzeAbortsAtFirstFault` | app.py:20-28 | the first sampled frame that fails ends the call with that frame's failure, whatever later frames hold |
| `VideoAnalysis.AnalyzeCompletesIff` | app.py:20-32 | a call returns normally if and only if the source did not open or no sampled frame fails |
| `VideoAnalysis.AnalyzeTally` | app.py:26-32 | on normal return, a label is a key exactly when some sampled frame's first face tops with it; its count is the number of such frames; the counts sum to the number of sampled frames with a face; the result is `{}` exactly when there is no such frame, which is always the case for an unopened source |
| `VideoAnalysis.OnlySampledFirstFacesMatter` | app.py:24-28 | two detectors that agree on the first face of every sampled frame give the same outcome, so unsampled frames and second faces are never looked at |
| `Scenarios.TieAndSecondFace` | app.py:13-32 | five frames at 1 fps with ties and a second face give `{happy: 2, sad: 1}`; the unsampled frames, whose detection would raise, are never sent to the detector |
| `Scenarios.RaiseOnSampledFrameAborts` | app.py:25 | a detector that raises on sampled frame 2 ends the call with that failure |
| `Scenarios.UnopenedIsEmpty` | app.py:20-32 | an unopened source gives `{}` |

## Left out

- The Streamlit page: title, headers, uploader, columns, bar chart, and the warning and error messages (app.py:7, 34-91). These are presentation only.
- Saving the upload under `uploads/` and removing it afterwards (app.py:43-49, 77-81). These are file-system I/O.
- Building the FER detector and caching it with `st.cache_resource` (app.py:9-11). The detector is a parameter: a fixed, deterministic function.
- OpenCV itself (`VideoCapture`, `get(CAP_PROP_FPS)`, `read`, `isOpened`, `release`). The capture is a value: an opened flag, the truncated frame rate and the frames. The model's reader position is `frame_count` itself, because the source advances both together. `release` is only the ghost flag `released`.
- The float frame rate and its truncation by `int`. The model takes the already-truncated integer rate as input.
- Classifier.TopEmotion: a face is a sequence of pairs, so the type admits a label twice, which the detector's dict cannot hold. On such a face the first maximal pair decides, which a dict built from the pairs might not; `TopEmotionOfDict` states the agreement for faces with distinct labels.
- Floating-point scores. Scores are reals used only in comparisons, so NaN and its effect on `max` are not modelled.
- The key order of `value_counts().to_dict()`. The result is a map, and nothing is claimed about order.
- Exceptions other than a detector raise and `max` over an empty emotion dict, such as a face record without an `"emotions"` key. The detector's records always have that field in this model.
- Percentages and a "dominant label". The code computes neither; the UI shows only the counts.
- Re-running on the same source gives the same result. This holds by construction, because `Analyze` is a function of the capture and the detector; no lemma states it.
