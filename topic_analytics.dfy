/** The `/analytics/topics` endpoint of backend/main.py. The database query is
    an input: one topic list per stored feedback row. */
module TopicAnalytics {
  import opened Collections

  /** `get_topic_analytics`: counts every topic occurrence over all rows. */
  method GetTopicAnalytics(rows: seq<seq<string>>) returns (topicDistribution: map<string, nat>)
    ensures forall t :: t in topicDistribution <==> exists i :: 0 <= i < |rows| && t in rows[i]
    ensures Tallies(topicDistribution, multiset(Flatten(rows)))
    ensures forall t :: t in topicDistribution ==> topicDistribution[t] >= 1
    ensures SumValues(topicDistribution) == |Flatten(rows)|
    ensures rows == [] ==> topicDistribution == map[]
  {
    var topicCounts: map<string, nat> := map[];
    for i := 0 to |rows|
      invariant Tallies(topicCounts, multiset(Flatten(rows[..i])))
      invariant SumValues(topicCounts) == |Flatten(rows[..i])|
    {
      assert rows[..i + 1] == rows[..i] + [rows[i]];
      FlattenSnoc(rows[..i], rows[i]);
      var next := Tally(topicCounts, rows[i]);
      TalliesAdd(topicCounts, multiset(Flatten(rows[..i])), rows[i], next);
      topicCounts := next;
    }
    assert rows[..|rows|] == rows;
    topicDistribution := topicCounts;
    CountedTopics(rows, topicDistribution);
  }

  /** A counter of all topic occurrences has a key, with a positive count,
      for exactly the topics of some row. */
  lemma CountedTopics(rows: seq<seq<string>>, counts: map<string, nat>)
    requires Tallies(counts, multiset(Flatten(rows)))
    ensures forall t :: t in counts <==> exists i :: 0 <= i < |rows| && t in rows[i]
    ensures forall t :: t in counts ==> counts[t] >= 1
  {
    forall t ensures t in counts <==> exists i :: 0 <= i < |rows| && t in rows[i] {
      FlattenMember(rows, t);
    }
    forall t | t in counts ensures counts[t] >= 1 {
      assert Get(counts, t) == multiset(Flatten(rows))[t];
    }
  }

  /** The distribution does not depend on the order in which the rows come
      back from the database. */
  lemma DistributionIgnoresRowOrder(rows: seq<seq<string>>, rows': seq<seq<string>>,
                                    d: map<string, nat>, d': map<string, nat>)
    requires multiset(rows) == multiset(rows')
    requires Tallies(d, multiset(Flatten(rows)))
    requires Tallies(d', multiset(Flatten(rows')))
    ensures d == d'
  {
    FlattenPermutation(rows, rows');
    TalliesUnique(d, d', multiset(Flatten(rows)));
  }
}
