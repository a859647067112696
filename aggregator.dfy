/**
 * The reduction of the collected emotion labels to a label -> count map
 * (`pd.Series(emotions).value_counts().to_dict()`), and the sum of its counts.
 */
module Aggregator {
  import opened Classifier

  /**
   * How often each label occurs in `labels`. The keys are exactly the labels
   * that occur, each with its number of occurrences, so every count is at
   * least 1; key order is not modelled.
   */
  function Tally(labels: seq<Label>): (t: map<Label, nat>)
    ensures forall l :: l in t <==> l in labels
    ensures forall l :: l in t ==> t[l] == multiset(labels)[l] && t[l] >= 1
  {
    if labels == [] then map[]
    else
      var init, last := labels[..|labels| - 1], labels[|labels| - 1];
      assert labels == init + [last];
      var prev := Tally(init);
      prev[last := if last in prev then prev[last] + 1 else 1]
  }

  /** The sum of all counts in a tally. */
  ghost function Total(t: map<Label, nat>): nat
    decreases t.Keys
  {
    if t == map[] then 0
    else
      var l :| l in t;
      t[l] + Total(t - {l})
  }

  /** Any key can be taken out first when summing a tally. */
  lemma {:induction false} TotalRemove(t: map<Label, nat>, l: Label)
    requires l in t
    ensures Total(t) == t[l] + Total(t - {l})
    decreases t.Keys
  {
    var l' :| l' in t && Total(t) == t[l'] + Total(t - {l'});
    if l' != l {
      assert (t - {l'}) - {l} == (t - {l}) - {l'};
      TotalRemove(t - {l'}, l);
      TotalRemove(t - {l}, l');
    }
  }

  /** The counts of a tally add up to the number of labels it was built from. */
  lemma {:induction false} TallyTotal(labels: seq<Label>)
    ensures Total(Tally(labels)) == |labels|
  {
    if labels != [] {
      var init, last := labels[..|labels| - 1], labels[|labels| - 1];
      var prev := Tally(init);
      var t := Tally(labels);
      TallyTotal(init);
      TotalRemove(t, last);
      assert t - {last} == prev - {last};
      if last in prev {
        TotalRemove(prev, last);
      } else {
        assert prev - {last} == prev;
      }
    }
  }
}
