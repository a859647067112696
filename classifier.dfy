/**
 * What the emotion detector returns for one frame, and how the analysis
 * picks the top-scoring emotion of one face (`max(emotions, key=emotions.get)`).
 */
module Classifier {

  type Label = string

  datatype Option<T> = None | Some(value: T)

  /**
   * One detected face: its emotion scores in the detector's enumeration
   * order. Scores are only ever compared with each other.
   */
  datatype Face = Face(emotions: seq<(Label, real)>)

  /** One call of the detector: the faces it found, or the exception it raised. */
  datatype Detection = Faces(faces: seq<Face>) | Raised(message: string)

  /**
   * Index `i` holds a maximal score, and no earlier entry reaches it: the
   * entry Python's `max` returns, since it keeps the current best unless a
   * later score is strictly greater.
   */
  ghost predicate IsTopAt(scores: seq<(Label, real)>, i: int)
  {
    && 0 <= i < |scores|
    && (forall j :: 0 <= j < |scores| ==> scores[j].1 <= scores[i].1)
    && (forall j :: 0 <= j < i ==> scores[j].1 < scores[i].1)
  }

  /** The position of the entry `max` picks, found by a left-to-right scan. */
  function ArgMax(scores: seq<(Label, real)>): (i: nat)
    requires |scores| > 0
    ensures IsTopAt(scores, i)
  {
    if |scores| == 1 then 0
    else
      var best := ArgMax(scores[..|scores| - 1]);
      if scores[|scores| - 1].1 > scores[best].1 then |scores| - 1 else best
  }

  /**
   * The top-scoring emotion of a face, or None when the face has no scores
   * (where Python's `max` raises on the empty dict).
   */
  function TopEmotion(face: Face): (r: Option<Label>)
    ensures r.None? <==> |face.emotions| == 0
    ensures r.Some? ==> exists i :: IsTopAt(face.emotions, i) && face.emotions[i].0 == r.value
  {
    if |face.emotions| == 0 then None
    else
      var i := ArgMax(face.emotions);
      Some(face.emotions[i].0)
  }

  /**
   * The labels of a face are pairwise distinct, as the keys of the dict the
   * detector returns always are.
   */
  predicate DistinctLabels(face: Face)
  {
    forall i, j :: 0 <= i < j < |face.emotions| ==> face.emotions[i].0 != face.emotions[j].0
  }

  /**
   * On a face whose labels are distinct, the label picked is carried by one
   * entry only, and that entry is the first maximal one: the label is what
   * `max(d, key=d.get)` returns for the dict holding these pairs.
   */
  lemma TopEmotionOfDict(face: Face)
    requires DistinctLabels(face) && |face.emotions| > 0
    ensures TopEmotion(face).Some?
    ensures forall i :: 0 <= i < |face.emotions| && face.emotions[i].0 == TopEmotion(face).value ==>
      IsTopAt(face.emotions, i)
  {
  }
}
