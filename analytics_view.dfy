/** The list logic of frontend/src/components/Analytics.tsx: the total of
    the sentiment counts and the ten most mentioned topics. Fetching and
    rendering are not modelled; `Object.values` and `Object.entries` are
    taken as the sequences they produce. */
module AnalyticsView {
  import opened Collections
  import opened Sorting

  /** The sum of the values, as a reference for the fold. */
  function Sum(values: seq<int>): int
  {
    if values == [] then 0 else Sum(values[..|values| - 1]) + values[|values| - 1]
  }

  lemma {:induction false} SumCons(x: int, values: seq<int>)
    ensures Sum([x] + values) == x + Sum(values)
    decreases |values|
  {
    if values != [] {
      var p := values[..|values| - 1];
      assert ([x] + values)[..|values|] == [x] + p;
      SumCons(x, p);
    } else {
      assert [x] + values == [x];
      assert [x][..0] == [];
    }
  }

  /** `values.reduce((a, b) => a + b, acc)`: a left fold, which adds every
      value to the seed. */
  function Reduce(values: seq<int>, acc: int): (r: int)
    ensures r == acc + Sum(values)
    decreases |values|
  {
    if values == [] then acc
    else
      assert values == [values[0]] + values[1..];
      SumCons(values[0], values[1..]);
      Reduce(values[1..], acc + values[0])
  }

  /** `totalSentiments`: the sum of the counts, or 0 before any data. */
  function TotalSentiments(sentimentData: Option<seq<int>>): (total: int)
    ensures sentimentData.None? ==> total == 0
    ensures sentimentData.Some? ==> total == Sum(sentimentData.value)
  {
    match sentimentData
    case None => 0
    case Some(values) => Reduce(values, 0)
  }

  /** Counts are never negative, so no count exceeds the total: every
      percentage shown is at most 100. */
  lemma {:induction false} CountWithinTotal(values: seq<int>, i: nat)
    requires forall j :: 0 <= j < |values| ==> values[j] >= 0
    requires i < |values|
    ensures 0 <= values[i] <= TotalSentiments(Some(values))
    decreases |values|
  {
    var p := values[..|values| - 1];
    if i < |p| {
      CountWithinTotal(p, i);
      assert values[|values| - 1] >= 0;
    } else {
      SumNonNegative(p);
    }
  }

  lemma {:induction false} SumNonNegative(values: seq<int>)
    requires forall j :: 0 <= j < |values| ==> values[j] >= 0
    ensures Sum(values) >= 0
    decreases |values|
  {
    if values != [] {
      SumNonNegative(values[..|values| - 1]);
    }
  }

  /** An entry of `Object.entries(topicData)`: a topic and its count. */
  type Entry = (string, int)

  /** The sort key of the comparator `([, a], [, b]) => b - a`: larger
      counts first. */
  function NegatedCount(e: Entry): int
  {
    -e.1
  }

  /** The topics, most mentioned first, cut to the first ten. */
  function TopTopics(entries: seq<Entry>): (top: seq<Entry>)
    ensures |top| == if |entries| < 10 then |entries| else 10
    ensures forall i, j :: 0 <= i < j < |top| ==> top[i].1 >= top[j].1
    ensures forall e :: e in top ==> e in entries
  {
    var sorted := SortBy(entries, NegatedCount);
    var top := sorted[..if |sorted| < 10 then |sorted| else 10];
    forall e | e in top ensures e in entries {
      assert e in multiset(sorted);
    }
    top
  }

  /** A topic left out is mentioned no more often than any topic listed. */
  lemma TopTopicsOmitted(entries: seq<Entry>)
    ensures forall e, t :: e in entries && e !in TopTopics(entries) && t in TopTopics(entries) ==> e.1 <= t.1
  {
    var sorted := SortBy(entries, NegatedCount);
    var top := TopTopics(entries);
    assert top == sorted[..|top|];
    forall e, t | e in entries && e !in top && t in top ensures e.1 <= t.1 {
      assert e in multiset(sorted);
      var j :| 0 <= j < |sorted| && sorted[j] == e;
      var i :| 0 <= i < |top| && top[i] == t;
      assert forall k :: 0 <= k < |top| ==> top[k] == sorted[k];
      assert j >= |top|;
      assert NegatedCount(sorted[i]) <= NegatedCount(sorted[j]);
    }
  }

  /** The sort keeps topics with equal counts in their `Object.entries`
      order, so for every count the topics listed with it are the first
      ones of that count, in that order. */
  lemma TopTopicsStable(entries: seq<Entry>)
    ensures forall k :: WithKey(TopTopics(entries), NegatedCount, k) <= WithKey(entries, NegatedCount, k)
  {
    var sorted := SortBy(entries, NegatedCount);
    var top := TopTopics(entries);
    assert top == sorted[..|top|];
    SortByStable(entries, NegatedCount);
    forall k ensures WithKey(top, NegatedCount, k) <= WithKey(entries, NegatedCount, k) {
      WithKeyPrefix(sorted, |top|, NegatedCount, k);
    }
  }

  /** With at most ten topics every one is listed, each as often as given. */
  lemma TopTopicsAllWhenFew(entries: seq<Entry>)
    requires |entries| <= 10
    ensures multiset(TopTopics(entries)) == multiset(entries)
  {
    var sorted := SortBy(entries, NegatedCount);
    assert sorted[..|sorted|] == sorted;
  }

  /** The topic names of a list of entries. */
  function Names(entries: seq<Entry>): (names: seq<string>)
    ensures |names| == |entries|
    ensures forall i :: 0 <= i < |entries| ==> names[i] == entries[i].0
  {
    seq(|entries|, i requires 0 <= i < |entries| => entries[i].0)
  }

  /** The keys of an object are distinct, so no topic is listed twice. */
  lemma TopTopicsDistinct(entries: seq<Entry>)
    requires NoDup(Names(entries))
    ensures NoDup(Names(TopTopics(entries)))
  {
    var sorted := SortBy(entries, NegatedCount);
    var top := TopTopics(entries);
    assert top == sorted[..|top|];
    assert NoDup(entries) by {
      forall a, b | 0 <= a < b < |entries| ensures entries[a] != entries[b] {
        assert Names(entries)[a] != Names(entries)[b];
      }
    }
    PermutationNoDup(entries, sorted);
    forall i, j | 0 <= i < j < |top| ensures Names(top)[i] != Names(top)[j] {
      assert sorted[i] != sorted[j];
      assert sorted[i] in multiset(entries) && sorted[j] in multiset(entries);
      var a :| 0 <= a < |entries| && entries[a] == sorted[i];
      var b :| 0 <= b < |entries| && entries[b] == sorted[j];
      assert a != b;
      assert Names(entries)[a] != Names(entries)[b];
    }
  }

  /** The counts of a list of entries: `Object.values(topicData)`. */
  function Counts(entries: seq<Entry>): (counts: seq<int>)
    ensures |counts| == |entries|
    ensures forall i :: 0 <= i < |entries| ==> counts[i] == entries[i].1
  {
    seq(|entries|, i requires 0 <= i < |entries| => entries[i].1)
  }

  /** `Math.max(...values)`, evaluated only while some topic is listed. */
  function MaxCount(values: seq<int>): (m: int)
    requires values != []
    ensures m in values
    ensures forall v :: v in values ==> v <= m
  {
    if |values| == 1 then values[0]
    else
      var m := MaxCount(values[1..]);
      assert forall v :: v in values ==> v == values[0] || v in values[1..] by {
        assert values == [values[0]] + values[1..];
      }
      if values[0] >= m then values[0] else m
  }

  /** No listed count exceeds the largest count, so no bar is wider than
      the full width. */
  lemma BarWithinFullWidth(entries: seq<Entry>)
    requires entries != []
    ensures forall t :: t in TopTopics(entries) ==> t.1 <= MaxCount(Counts(entries))
  {
    var counts := Counts(entries);
    var m := MaxCount(counts);
    forall i | 0 <= i < |entries| ensures entries[i].1 <= m {
      assert counts[i] in counts;
    }
    var top := TopTopics(entries);
    forall t | t in top ensures t.1 <= m {
      assert t in entries;
    }
  }
}
