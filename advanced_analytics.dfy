/** The aggregation rules of backend/app/services/analytics.py
    (`AdvancedAnalytics`). The feedback analyzer is not modelled: each feedback
    carries the sentiment score and the topic list it produced. */
module AdvancedAnalytics {
  import opened Collections
  import opened Sorting

  const MicrosecondsPerDay: int := 86_400_000_000

  /** A stored feedback: its creation time in microseconds (the resolution of a
      `datetime`), and the score and the
      topics the analyzer derived from its text. */
  datatype Feedback = Feedback(createdAt: int, score: real, topics: seq<string>)

  function CreatedAt(f: Feedback): int
  {
    f.createdAt
  }

  /** `created_at.date()`, as a day number (floor division). */
  function Day(f: Feedback): int
  {
    f.createdAt / MicrosecondsPerDay
  }

  /** A later feedback never has an earlier date. */
  lemma DayMonotone(f: Feedback, g: Feedback)
    requires f.createdAt <= g.createdAt
    ensures Day(f) <= Day(g)
  {
  }

  /** Along the list sorted by creation time the dates never decrease, so
      the loop of `analyze_trends` meets the days in chronological order. */
  lemma SortedDays(fs: seq<Feedback>)
    requires SortedBy(fs, CreatedAt)
    ensures forall i, j :: 0 <= i <= j < |fs| ==> Day(fs[i]) <= Day(fs[j])
  {
    forall i, j | 0 <= i <= j < |fs| ensures Day(fs[i]) <= Day(fs[j]) {
      if i < j {
        DayMonotone(fs[i], fs[j]);
      }
    }
  }

  // ---------------------------------------------------------------------
  // The feedback of one day, and what the loop of `analyze_trends` keeps of it

  /** The feedbacks of day `d`, in the order of `fs`. */
  function OnDay(fs: seq<Feedback>, d: int): seq<Feedback>
  {
    if fs == [] then []
    else
      var p := OnDay(fs[..|fs| - 1], d);
      if Day(fs[|fs| - 1]) == d then p + [fs[|fs| - 1]] else p
  }

  /** The feedbacks of a day are feedbacks of that day. */
  lemma {:induction false} OnDayMembers(fs: seq<Feedback>, d: int)
    ensures forall g :: g in OnDay(fs, d) ==> g in fs && Day(g) == d
    decreases |fs|
  {
    if fs != [] {
      var p := fs[..|fs| - 1];
      OnDayMembers(p, d);
      assert forall g :: g in p ==> g in fs;
    }
  }

  /** Every feedback of `fs` is among the feedbacks of its own day. */
  lemma {:induction false} OnDayComplete(fs: seq<Feedback>, f: Feedback)
    requires f in fs
    ensures f in OnDay(fs, Day(f))
    decreases |fs|
  {
    var p := fs[..|fs| - 1];
    if f != fs[|fs| - 1] {
      assert fs == p + [fs[|fs| - 1]];
      OnDayComplete(p, f);
    }
  }

  /** Filtering a list sorted by creation time keeps it sorted: each day's
      scores are in timestamp order. */
  lemma {:induction false} OnDaySorted(fs: seq<Feedback>, d: int)
    requires SortedBy(fs, CreatedAt)
    ensures SortedBy(OnDay(fs, d), CreatedAt)
    decreases |fs|
  {
    if fs != [] {
      var p := fs[..|fs| - 1];
      var last := fs[|fs| - 1];
      assert SortedBy(p, CreatedAt);
      OnDaySorted(p, d);
      if Day(last) == d {
        var q := OnDay(p, d);
        OnDayMembers(p, d);
        forall g | g in q ensures g.createdAt <= last.createdAt {
          var k :| 0 <= k < |p| && p[k] == g;
          assert fs[k] == g;
        }
        assert OnDay(fs, d) == q + [last];
      }
    }
  }

  /** The scores, one per feedback, in order. */
  function Scores(fs: seq<Feedback>): (r: seq<real>)
    ensures |r| == |fs|
  {
    if fs == [] then [] else Scores(fs[..|fs| - 1]) + [fs[|fs| - 1].score]
  }

  /** The topic list of each feedback, in order. */
  function TopicLists(fs: seq<Feedback>): (r: seq<seq<string>>)
    ensures |r| == |fs|
    ensures forall i :: 0 <= i < |fs| ==> r[i] == fs[i].topics
  {
    seq(|fs|, i requires 0 <= i < |fs| => fs[i].topics)
  }

  /** All topic occurrences: the topic lists joined in order. */
  function AllTopics(fs: seq<Feedback>): seq<string>
  {
    Flatten(TopicLists(fs))
  }

  /** The topic occurrences of day `d`, as a bag. */
  function DayTopics(fs: seq<Feedback>, d: int): multiset<string>
  {
    multiset(AllTopics(OnDay(fs, d)))
  }

  /** A topic occurs in the feedbacks of day `d` exactly when some feedback of
      that day lists it. */
  lemma {:induction false} OnDayTopics(fs: seq<Feedback>, d: int, t: string)
    ensures t in AllTopics(OnDay(fs, d)) <==> exists f :: f in fs && Day(f) == d && t in f.topics
    decreases |fs|
  {
    if fs != [] {
      var p := fs[..|fs| - 1];
      var last := fs[|fs| - 1];
      OnDayTopics(p, d, t);
      assert forall f :: f in fs <==> f in p || f == last by {
        assert fs == p + [last];
      }
      if Day(last) == d {
        assert OnDay(fs, d) == OnDay(p, d) + [last];
        AllTopicsSnoc(OnDay(p, d), last);
      }
    }
  }

  lemma OnDaySnoc(fs: seq<Feedback>, f: Feedback, d: int)
    ensures OnDay(fs + [f], d) == OnDay(fs, d) + (if Day(f) == d then [f] else [])
  {
    assert (fs + [f])[..|fs|] == fs;
  }

  lemma ScoresSnoc(fs: seq<Feedback>, f: Feedback)
    ensures Scores(fs + [f]) == Scores(fs) + [f.score]
  {
    assert (fs + [f])[..|fs|] == fs;
  }

  lemma AllTopicsSnoc(fs: seq<Feedback>, f: Feedback)
    ensures AllTopics(fs + [f]) == AllTopics(fs) + f.topics
  {
    assert TopicLists(fs + [f]) == TopicLists(fs) + [f.topics];
    FlattenSnoc(TopicLists(fs), f.topics);
  }

  lemma {:induction false} OnDayAppend(a: seq<Feedback>, b: seq<Feedback>, d: int)
    ensures OnDay(a + b, d) == OnDay(a, d) + OnDay(b, d)
    decreases |b|
  {
    if b == [] {
      assert a + b == a;
    } else {
      var b', x := b[..|b| - 1], b[|b| - 1];
      assert a + b == (a + b') + [x];
      assert b == b' + [x];
      OnDaySnoc(a + b', x, d);
      OnDaySnoc(b', x, d);
      OnDayAppend(a, b', d);
    }
  }

  lemma AllTopicsAppend(a: seq<Feedback>, b: seq<Feedback>)
    ensures AllTopics(a + b) == AllTopics(a) + AllTopics(b)
  {
    assert TopicLists(a + b) == TopicLists(a) + TopicLists(b);
    FlattenAppend(TopicLists(a), TopicLists(b));
  }

  /** Taking one feedback out of `fs` takes its topics out of its day's bag. */
  lemma DayTopicsRemove(fs: seq<Feedback>, j: nat, d: int)
    requires j < |fs|
    ensures DayTopics(fs, d)
         == DayTopics(fs[..j] + fs[j + 1..], d) + if Day(fs[j]) == d then multiset(fs[j].topics) else multiset{}
  {
    var x := fs[j];
    assert fs == (fs[..j] + [x]) + fs[j + 1..];
    OnDayAppend(fs[..j] + [x], fs[j + 1..], d);
    OnDaySnoc(fs[..j], x, d);
    OnDayAppend(fs[..j], fs[j + 1..], d);
    var before, after := OnDay(fs[..j], d), OnDay(fs[j + 1..], d);
    if Day(x) == d {
      AllTopicsAppend(before + [x], after);
      AllTopicsSnoc(before, x);
    } else {
      assert before + [] == before;
      AllTopicsAppend(before, after);
    }
    AllTopicsAppend(before, after);
  }

  lemma DayTopicsSnoc(fs: seq<Feedback>, x: Feedback, d: int)
    ensures DayTopics(fs + [x], d)
         == DayTopics(fs, d) + if Day(x) == d then multiset(x.topics) else multiset{}
  {
    OnDaySnoc(fs, x, d);
    if Day(x) == d {
      AllTopicsSnoc(OnDay(fs, d), x);
    } else {
      assert OnDay(fs, d) + [] == OnDay(fs, d);
    }
  }

  /** The bag of a day's topic occurrences does not depend on the order of
      the feedbacks: sorting them first changes no count. */
  lemma {:induction false} DayTopicsPermutation(a: seq<Feedback>, b: seq<Feedback>, d: int)
    requires multiset(a) == multiset(b)
    ensures DayTopics(a, d) == DayTopics(b, d)
    decreases |a|
  {
    if a == [] {
      assert |multiset(b)| == 0;
    } else {
      var a', x := a[..|a| - 1], a[|a| - 1];
      assert x in multiset(b) by { assert a == a' + [x]; }
      var j :| 0 <= j < |b| && b[j] == x;
      PermutationRemove(a, b, j);
      DayTopicsPermutation(a', b[..j] + b[j + 1..], d);
      DayTopicsRemove(b, j, d);
      assert a == a' + [x];
      DayTopicsSnoc(a', x, d);
    }
  }

  /** A score occurs among the scores of day `d` exactly when some feedback
      of that day has it. */
  lemma {:induction false} OnDayScores(fs: seq<Feedback>, d: int, x: real)
    ensures x in Scores(OnDay(fs, d)) <==> exists f :: f in fs && Day(f) == d && f.score == x
    decreases |fs|
  {
    if fs != [] {
      var p, last := fs[..|fs| - 1], fs[|fs| - 1];
      OnDayScores(p, d, x);
      assert forall f :: f in fs <==> f in p || f == last by {
        assert fs == p + [last];
      }
      if Day(last) == d {
        assert OnDay(fs, d) == OnDay(p, d) + [last];
        ScoresSnoc(OnDay(p, d), last);
      }
    }
  }

  /** The length of every day's score list. */
  function Lengths(daily: map<int, seq<real>>): (r: map<int, nat>)
    ensures r.Keys == daily.Keys
  {
    map d | d in daily :: |daily[d]|
  }

  /** Replacing one day's list changes the total length by the difference. */
  lemma LengthsStep(daily: map<int, seq<real>>, date: int, scores: seq<real>)
    ensures SumValues(Lengths(daily[date := scores]))
         == SumValues(Lengths(daily)) - (if date in daily then |daily[date]| else 0) + |scores|
  {
    assert Lengths(daily[date := scores]) == Lengths(daily)[date := |scores|];
    SumValuesUpdate(Lengths(daily), date, |scores|);
  }

  /** `dailySentiments` holds, for every day that occurs in `fs` and no
      other, the scores of that day's feedbacks in the order of `fs`; so
      there are as many scores in all as feedbacks. */
  ghost predicate ScoresGrouped(dailySentiments: map<int, seq<real>>, fs: seq<Feedback>)
  {
    && (forall d :: d in dailySentiments <==> OnDay(fs, d) != [])
    && (forall d :: d in dailySentiments ==> dailySentiments[d] == Scores(OnDay(fs, d)))
    && SumValues(Lengths(dailySentiments)) == |fs|
  }

  /** `topicsOverTime` holds, for every day that occurs in `fs` and no other,
      a counter of the topic occurrences of that day's feedbacks. */
  ghost predicate TopicsGrouped(topicsOverTime: map<int, map<string, nat>>, fs: seq<Feedback>)
  {
    && (forall d :: d in topicsOverTime <==> OnDay(fs, d) != [])
    && (forall d :: d in topicsOverTime ==> Tallies(topicsOverTime[d], DayTopics(fs, d)))
  }

  /** Appending one score to its day's list (lines 32-34) keeps ScoresGrouped. */
  lemma ScoresStep(dailySentiments: map<int, seq<real>>, fs: seq<Feedback>, f: Feedback, next: map<int, seq<real>>)
    requires ScoresGrouped(dailySentiments, fs)
    requires next == dailySentiments[Day(f) := (if Day(f) in dailySentiments then dailySentiments[Day(f)] else []) + [f.score]]
    ensures ScoresGrouped(next, fs + [f])
  {
    var date := Day(f);
    var prior := if date in dailySentiments then dailySentiments[date] else [];
    forall d ensures d in next <==> OnDay(fs + [f], d) != [] {
      OnDaySnoc(fs, f, d);
    }
    forall d | d in next ensures next[d] == Scores(OnDay(fs + [f], d)) {
      OnDaySnoc(fs, f, d);
      if d == date {
        ScoresSnoc(OnDay(fs, d), f);
      }
    }
    LengthsStep(dailySentiments, date, prior + [f.score]);
  }

  /** The counter of the feedback's own day, once its topics are counted in. */
  lemma DayCountStep(prior: map<string, nat>, fs: seq<Feedback>, f: Feedback, counts: map<string, nat>)
    requires Tallies(prior, DayTopics(fs, Day(f)))
    requires forall k :: k in counts <==> k in prior || k in f.topics
    requires forall k :: Get(counts, k) == Get(prior, k) + multiset(f.topics)[k]
    ensures Tallies(counts, DayTopics(fs + [f], Day(f)))
  {
    DayTopicsSnoc(fs, f, Day(f));
    TalliesAdd(prior, DayTopics(fs, Day(f)), f.topics, counts);
  }

  /** Counting one feedback's topics into its day's counter (lines 37-40)
      keeps TopicsGrouped. */
  lemma TopicsStep(topicsOverTime: map<int, map<string, nat>>, fs: seq<Feedback>, f: Feedback,
                   prior: map<string, nat>, counts: map<string, nat>, next: map<int, map<string, nat>>)
    requires TopicsGrouped(topicsOverTime, fs)
    requires prior == if Day(f) in topicsOverTime then topicsOverTime[Day(f)] else map[]
    requires forall k :: k in counts <==> k in prior || k in f.topics
    requires forall k :: Get(counts, k) == Get(prior, k) + multiset(f.topics)[k]
    requires next == topicsOverTime[Day(f) := counts]
    ensures TopicsGrouped(next, fs + [f])
  {
    var date := Day(f);
    forall d ensures d in next <==> OnDay(fs + [f], d) != [] {
      OnDaySnoc(fs, f, d);
    }
    forall d | d in next ensures Tallies(next[d], DayTopics(fs + [f], d)) {
      if d == date {
        if date !in topicsOverTime {
          assert OnDay(fs, d) == [];
          assert DayTopics(fs, d) == multiset{};
        }
        DayCountStep(prior, fs, f, counts);
      } else {
        DayTopicsSnoc(fs, f, d);
      }
    }
  }

  /** One iteration of the loop of `analyze_trends` over `sorted`. */
  lemma GroupStep(sorted: seq<Feedback>, i: nat,
                  dailySentiments: map<int, seq<real>>, topicsOverTime: map<int, map<string, nat>>,
                  prior: map<string, nat>, counts: map<string, nat>,
                  nextSentiments: map<int, seq<real>>, nextTopics: map<int, map<string, nat>>)
    requires i < |sorted|
    requires ScoresGrouped(dailySentiments, sorted[..i]) && TopicsGrouped(topicsOverTime, sorted[..i])
    requires nextSentiments == dailySentiments[Day(sorted[i]) := (if Day(sorted[i]) in dailySentiments then dailySentiments[Day(sorted[i])] else []) + [sorted[i].score]]
    requires prior == if Day(sorted[i]) in topicsOverTime then topicsOverTime[Day(sorted[i])] else map[]
    requires forall k :: k in counts <==> k in prior || k in sorted[i].topics
    requires forall k :: Get(counts, k) == Get(prior, k) + multiset(sorted[i].topics)[k]
    requires nextTopics == topicsOverTime[Day(sorted[i]) := counts]
    ensures ScoresGrouped(nextSentiments, sorted[..i + 1]) && TopicsGrouped(nextTopics, sorted[..i + 1])
  {
    assert sorted[..i + 1] == sorted[..i] + [sorted[i]];
    ScoresStep(dailySentiments, sorted[..i], sorted[i], nextSentiments);
    TopicsStep(topicsOverTime, sorted[..i], sorted[i], prior, counts, nextTopics);
  }

  /** The loop of `analyze_trends` over the sorted feedbacks: one score list
      and one topic counter per day. */
  method GroupByDay(sorted: seq<Feedback>)
    returns (dailySentiments: map<int, seq<real>>, topicsOverTime: map<int, map<string, nat>>)
    ensures ScoresGrouped(dailySentiments, sorted)
    ensures TopicsGrouped(topicsOverTime, sorted)
  {
    dailySentiments, topicsOverTime := map[], map[];
    for i := 0 to |sorted|
      invariant ScoresGrouped(dailySentiments, sorted[..i])
      invariant TopicsGrouped(topicsOverTime, sorted[..i])
    {
      var feedback := sorted[i];
      var date := Day(feedback);
      ghost var scoresBefore, topicsBefore := dailySentiments, topicsOverTime;
      if date !in dailySentiments {
        dailySentiments := dailySentiments[date := []];
      }
      dailySentiments := dailySentiments[date := dailySentiments[date] + [feedback.score]];
      if date !in topicsOverTime {
        topicsOverTime := topicsOverTime[date := map[]];
      }
      ghost var prior := topicsOverTime[date];
      var counts := Tally(topicsOverTime[date], feedback.topics);
      topicsOverTime := topicsOverTime[date := counts];
      GroupStep(sorted, i, scoresBefore, topicsBefore, prior, counts, dailySentiments, topicsOverTime);
    }
    assert sorted[..|sorted|] == sorted;
  }

  // ---------------------------------------------------------------------
  // `_calculate_sentiment_trends`: the min and max of each day

  /** `min` of a non-empty list. */
  function Min(s: seq<real>): (m: real)
    requires s != []
    ensures m in s && forall x :: x in s ==> m <= x
  {
    if |s| == 1 then s[0]
    else
      var m := Min(s[1..]);
      assert forall x :: x in s ==> x == s[0] || x in s[1..] by { assert s == [s[0]] + s[1..]; }
      if s[0] <= m then s[0] else m
  }

  /** `max` of a non-empty list. */
  function Max(s: seq<real>): (m: real)
    requires s != []
    ensures m in s && forall x :: x in s ==> x <= m
  {
    if |s| == 1 then s[0]
    else
      var m := Max(s[1..]);
      assert forall x :: x in s ==> x == s[0] || x in s[1..] by { assert s == [s[0]] + s[1..]; }
      if s[0] >= m then s[0] else m
  }

  /** The `min` and `max` entries of one day's trend (the mean and standard
      deviation are numeric-library results and are not modelled). */
  datatype DayStats = DayStats(min: real, max: real)

  /** `stats` are the least and the greatest of the scores. */
  ghost predicate IsRangeOf(stats: DayStats, scores: seq<real>)
  {
    stats.min in scores && stats.max in scores
    && forall x :: x in scores ==> stats.min <= x <= stats.max
  }

  /** `_calculate_sentiment_trends`, with `None` where `min` of an empty list
      would raise `ValueError`. */
  method SentimentTrends(dailySentiments: map<int, seq<real>>) returns (trends: Option<map<int, DayStats>>)
    ensures trends.None? <==> exists d :: d in dailySentiments && dailySentiments[d] == []
    ensures trends.Some? ==> trends.value.Keys == dailySentiments.Keys
    ensures trends.Some? ==> forall d :: d in dailySentiments ==>
              IsRangeOf(trends.value[d], dailySentiments[d]) && trends.value[d].min <= trends.value[d].max
  {
    var result: map<int, DayStats> := map[];
    var pending := dailySentiments.Keys;
    while pending != {}
      invariant pending <= dailySentiments.Keys
      invariant result.Keys == dailySentiments.Keys - pending
      invariant forall d :: d in result ==> dailySentiments[d] != [] && IsRangeOf(result[d], dailySentiments[d])
      decreases |pending|
    {
      var date := Pick(pending);
      var sentiments := dailySentiments[date];
      if sentiments == [] {
        assert date in dailySentiments && dailySentiments[date] == [];
        return None;
      }
      var stats := DayStats(Min(sentiments), Max(sentiments));
      assert IsRangeOf(stats, sentiments);
      result := result[date := stats];
      pending := pending - {date};
    }
    trends := Some(result);
  }

  // ---------------------------------------------------------------------
  // `_calculate_topic_trends`: date -> topic -> count pivoted to topic -> date -> count

  /** The dict comprehension for one topic: its count on every date, 0 where
      it did not occur. */
  function DateColumn(topicsOverTime: map<int, map<string, nat>>, topic: string): (column: map<int, nat>)
    ensures column.Keys == topicsOverTime.Keys
    ensures forall d :: d in column ==>
              column[d] == if topic in topicsOverTime[d] then topicsOverTime[d][topic] else 0
  {
    map d | d in topicsOverTime :: Get(topicsOverTime[d], topic)
  }

  /** `trends` has a key for every topic seen on some date, and each topic
      has an entry for every date: that date's count, or 0. */
  ghost predicate IsTopicTrends(trends: map<string, map<int, nat>>, topicsOverTime: map<int, map<string, nat>>)
  {
    && (forall t :: t in trends <==> exists d :: d in topicsOverTime && t in topicsOverTime[d])
    && forall t :: t in trends ==>
         trends[t].Keys == topicsOverTime.Keys
         && forall d :: d in topicsOverTime ==> trends[t][d] == Get(topicsOverTime[d], t)
  }

  method TopicTrends(topicsOverTime: map<int, map<string, nat>>) returns (trends: map<string, map<int, nat>>)
    ensures IsTopicTrends(trends, topicsOverTime)
  {
    var allTopics: set<string> := {};
    var pending := topicsOverTime.Keys;
    while pending != {}
      invariant pending <= topicsOverTime.Keys
      invariant forall t :: t in allTopics <==> exists d :: d in topicsOverTime && d !in pending && t in topicsOverTime[d]
      decreases |pending|
    {
      var date := Pick(pending);
      allTopics := allTopics + topicsOverTime[date].Keys;
      pending := pending - {date};
    }
    trends := map[];
    var todo := allTopics;
    while todo != {}
      invariant todo <= allTopics
      invariant trends.Keys == allTopics - todo
      invariant forall t :: t in trends ==> trends[t] == DateColumn(topicsOverTime, t)
      decreases |todo|
    {
      var topic := Pick(todo);
      trends := trends[topic := DateColumn(topicsOverTime, topic)];
      todo := todo - {topic};
    }
  }

  /** The counter of date `d` read back out of the topic trends, dropping
      the zeros the pivot filled in. */
  function Row(trends: map<string, map<int, nat>>, d: int): map<string, nat>
  {
    map t | t in trends && d in trends[t] && trends[t][d] > 0 :: trends[t][d]
  }

  /** Every date's counter read back out of the topic trends. */
  function Unpivot(trends: map<string, map<int, nat>>, dates: set<int>): map<int, map<string, nat>>
  {
    map d | d in dates :: Row(trends, d)
  }

  /** Date `d`'s column of the trends gives back a counter of positive counts. */
  lemma RowRecovers(trends: map<string, map<int, nat>>, d: int, counts: map<string, nat>)
    requires forall t :: t in counts ==> t in trends
    requires forall t :: t in trends ==> d in trends[t] && trends[t][d] == Get(counts, t)
    requires forall t :: t in counts ==> counts[t] > 0
    ensures Row(trends, d) == counts
  {
    var row := Row(trends, d);
    assert row.Keys == counts.Keys;
  }

  /** Every topic counted on a day was counted at least once. */
  lemma GroupedCountsPositive(topicsOverTime: map<int, map<string, nat>>, fs: seq<Feedback>)
    requires TopicsGrouped(topicsOverTime, fs)
    ensures forall d :: d in topicsOverTime ==> forall t :: t in topicsOverTime[d] ==> topicsOverTime[d][t] > 0
  {
    forall d, t | d in topicsOverTime && t in topicsOverTime[d] ensures topicsOverTime[d][t] > 0 {
      assert Get(topicsOverTime[d], t) == DayTopics(fs, d)[t];
    }
  }

  /** The pivot loses nothing: when every counted topic has a positive count
      (as GroupedCountsPositive shows the grouping guarantees), the counters
      can be recovered. */
  lemma TopicTrendsLoseNothing(trends: map<string, map<int, nat>>, topicsOverTime: map<int, map<string, nat>>)
    requires IsTopicTrends(trends, topicsOverTime)
    requires forall d :: d in topicsOverTime ==> forall t :: t in topicsOverTime[d] ==> topicsOverTime[d][t] > 0
    ensures Unpivot(trends, topicsOverTime.Keys) == topicsOverTime
  {
    forall d | d in topicsOverTime ensures Row(trends, d) == topicsOverTime[d] {
      forall t | t in topicsOverTime[d] ensures t in trends {
        assert d in topicsOverTime && t in topicsOverTime[d];
      }
      RowRecovers(trends, d, topicsOverTime[d]);
    }
  }

  // ---------------------------------------------------------------------
  // `analyze_trends`

  /** The `sentiment_trends` and `topic_trends` parts of the report. */
  datatype TrendReport = TrendReport(sentimentTrends: map<int, DayStats>, topicTrends: map<string, map<int, nat>>)

  /** The days of the grouping are the days of the feedbacks, and none of
      them has an empty score list. */
  lemma GroupedDays(dailySentiments: map<int, seq<real>>, topicsOverTime: map<int, map<string, nat>>, fs: seq<Feedback>)
    requires ScoresGrouped(dailySentiments, fs) && TopicsGrouped(topicsOverTime, fs)
    ensures topicsOverTime.Keys == dailySentiments.Keys
    ensures forall d :: d in dailySentiments <==> exists f :: f in fs && Day(f) == d
    ensures forall d :: d in dailySentiments ==> dailySentiments[d] != []
  {
    forall d ensures d in dailySentiments <==> exists f :: f in fs && Day(f) == d {
      OnDayMembers(fs, d);
      if OnDay(fs, d) != [] {
        assert OnDay(fs, d)[0] in OnDay(fs, d);
      }
      if exists f :: f in fs && Day(f) == d {
        var f :| f in fs && Day(f) == d;
        OnDayComplete(fs, f);
      }
    }
    assert forall d :: d in topicsOverTime <==> d in dailySentiments;
  }

  /** A topic is counted on some day exactly when some feedback lists it. */
  lemma GroupedTopics(topicsOverTime: map<int, map<string, nat>>, fs: seq<Feedback>, t: string)
    requires TopicsGrouped(topicsOverTime, fs)
    ensures (exists d :: d in topicsOverTime && t in topicsOverTime[d]) <==> exists f :: f in fs && t in f.topics
  {
    if exists f :: f in fs && t in f.topics {
      var f :| f in fs && t in f.topics;
      OnDayComplete(fs, f);
      OnDayTopics(fs, Day(f), t);
      assert t in topicsOverTime[Day(f)];
    }
    if exists d :: d in topicsOverTime && t in topicsOverTime[d] {
      var d :| d in topicsOverTime && t in topicsOverTime[d];
      OnDayTopics(fs, d, t);
    }
  }

  /** Each topic column of the pivot holds that topic's count on every day. */
  lemma TrendCounts(topicTrends: map<string, map<int, nat>>, topicsOverTime: map<int, map<string, nat>>, fs: seq<Feedback>)
    requires IsTopicTrends(topicTrends, topicsOverTime) && TopicsGrouped(topicsOverTime, fs)
    ensures forall t :: t in topicTrends ==>
              topicTrends[t].Keys == topicsOverTime.Keys
              && forall d :: d in topicsOverTime ==> topicTrends[t][d] == DayTopics(fs, d)[t]
  {
    forall t, d | t in topicTrends && d in topicsOverTime
      ensures topicTrends[t][d] == DayTopics(fs, d)[t]
    {
      assert Tallies(topicsOverTime[d], DayTopics(fs, d));
    }
  }

  /** Each day's counter can be read back out of the pivot. */
  lemma TrendRows(topicTrends: map<string, map<int, nat>>, topicsOverTime: map<int, map<string, nat>>, fs: seq<Feedback>)
    requires IsTopicTrends(topicTrends, topicsOverTime) && TopicsGrouped(topicsOverTime, fs)
    ensures forall d :: d in topicsOverTime ==> Tallies(Row(topicTrends, d), DayTopics(fs, d))
  {
    GroupedCountsPositive(topicsOverTime, fs);
    TopicTrendsLoseNothing(topicTrends, topicsOverTime);
    forall d | d in topicsOverTime ensures Tallies(Row(topicTrends, d), DayTopics(fs, d)) {
      assert Unpivot(topicTrends, topicsOverTime.Keys)[d] == Row(topicTrends, d);
    }
  }

  /** Each day's statistics span that day's scores. */
  lemma TrendRanges(sentimentTrends: map<int, DayStats>, dailySentiments: map<int, seq<real>>, fs: seq<Feedback>)
    requires ScoresGrouped(dailySentiments, fs)
    requires sentimentTrends.Keys == dailySentiments.Keys
    requires forall d :: d in dailySentiments ==> IsRangeOf(sentimentTrends[d], dailySentiments[d])
    ensures forall d :: d in sentimentTrends ==> IsRangeOf(sentimentTrends[d], Scores(OnDay(fs, d)))
  {
  }

  /** The range of a day's scores is the same whichever order the feedbacks
      come in. */
  lemma RangePermutation(stats: DayStats, a: seq<Feedback>, b: seq<Feedback>, d: int)
    requires multiset(a) == multiset(b)
    requires IsRangeOf(stats, Scores(OnDay(a, d)))
    ensures IsRangeOf(stats, Scores(OnDay(b, d)))
  {
    SameMembers(a, b);
    forall x ensures x in Scores(OnDay(a, d)) <==> x in Scores(OnDay(b, d)) {
      OnDayScores(a, d, x);
      OnDayScores(b, d, x);
    }
  }

  /** `analyze_trends` without `overall_stats`: the day ranges come from the
      feedbacks of that day, and each topic's column counts its occurrences
      on every day that has feedback. */
  method AnalyzeTrends(feedbacks: seq<Feedback>) returns (report: TrendReport)
    ensures forall d :: d in report.sentimentTrends <==> exists f :: f in feedbacks && Day(f) == d
    ensures forall d :: d in report.sentimentTrends ==>
              IsRangeOf(report.sentimentTrends[d], Scores(OnDay(feedbacks, d)))
    ensures forall t :: t in report.topicTrends <==> exists f :: f in feedbacks && t in f.topics
    ensures forall t :: t in report.topicTrends ==>
              report.topicTrends[t].Keys == report.sentimentTrends.Keys
              && forall d :: d in report.sentimentTrends ==>
                   report.topicTrends[t][d] == DayTopics(feedbacks, d)[t]
    ensures forall d :: d in report.sentimentTrends ==> Tallies(Row(report.topicTrends, d), DayTopics(feedbacks, d))
  {
    var sorted := SortBy(feedbacks, CreatedAt);
    SameMembers(sorted, feedbacks);
    var dailySentiments, topicsOverTime := GroupByDay(sorted);
    GroupedDays(dailySentiments, topicsOverTime, sorted);
    var sentimentTrends := SentimentTrends(dailySentiments);
    var topicTrends := TopicTrends(topicsOverTime);
    report := TrendReport(sentimentTrends.value, topicTrends);
    TrendRanges(sentimentTrends.value, dailySentiments, sorted);
    forall d | d in report.sentimentTrends ensures IsRangeOf(report.sentimentTrends[d], Scores(OnDay(feedbacks, d))) {
      RangePermutation(report.sentimentTrends[d], sorted, feedbacks, d);
    }
    TrendCounts(topicTrends, topicsOverTime, sorted);
    TrendRows(topicTrends, topicsOverTime, sorted);
    forall d ensures DayTopics(sorted, d) == DayTopics(feedbacks, d) {
      DayTopicsPermutation(sorted, feedbacks, d);
    }
    forall t ensures t in topicTrends <==> exists f :: f in feedbacks && t in f.topics {
      GroupedTopics(topicsOverTime, sorted, t);
    }
  }

  // ---------------------------------------------------------------------
  // `_generate_recommendations`

  datatype Recommendation = CriticalSentiment | HighFrequencyTopic(topic: string)
  {
    /** The text appended to the list. A topic's message holds the topic
        between a fixed prefix of 22 and suffix of 20 characters. */
    function Message(): (m: string)
      ensures CriticalSentiment? ==> m == "Critical attention needed: Overall sentiment is negative"
      ensures HighFrequencyTopic? ==> |m| == |topic| + 42 && m[0] == 'H' && m[22..|m| - 20] == topic
      ensures HighFrequencyTopic? ==> m[..22] == "High frequency topic '" && m[|m| - 20..] == "' requires attention"
    {
      match this
      case CriticalSentiment => "Critical attention needed: Overall sentiment is negative"
      case HighFrequencyTopic(t) =>
        var head, tail := "High frequency topic '", "' requires attention";
        assert |head| == 22 && |tail| == 20 && head[0] == 'H';
        var m := head + t + tail;
        assert m[22..|m| - 20] == t;
        m
    }
  }

  /** Different recommendations never read the same. */
  lemma MessageInjective(a: Recommendation, b: Recommendation)
    requires a.Message() == b.Message()
    ensures a == b
  {
    if a.HighFrequencyTopic? && b.HighFrequencyTopic? {
      assert a.topic == a.Message()[22..|a.Message()| - 20];
    }
  }

  function Sum(s: seq<real>): real
  {
    if s == [] then 0.0 else Sum(s[..|s| - 1]) + s[|s| - 1]
  }

  /** `np.mean` on exact reals. */
  function Mean(s: seq<real>): real
    requires s != []
  {
    Sum(s) / |s| as real
  }

  /** `avg_sentiment < 0.3`; for no feedback `np.mean` is NaN and the
      comparison is false. */
  predicate SentimentIsNegative(scores: seq<real>)
  {
    scores != [] && Mean(scores) < 0.3
  }

  /** `count > len(feedbacks) * 0.3` */
  predicate IsFrequent(count: nat, feedbackCount: nat)
  {
    count as real > feedbackCount as real * 0.3
  }

  /** The topic recommendations, in the order of `topics`. */
  function FrequentTopics(topics: seq<string>, counts: multiset<string>, feedbackCount: nat): seq<Recommendation>
  {
    if topics == [] then []
    else
      var r := FrequentTopics(topics[..|topics| - 1], counts, feedbackCount);
      var t := topics[|topics| - 1];
      if IsFrequent(counts[t], feedbackCount) then r + [HighFrequencyTopic(t)] else r
  }

  lemma FrequentTopicsSnoc(topics: seq<string>, t: string, counts: multiset<string>, feedbackCount: nat)
    ensures FrequentTopics(topics + [t], counts, feedbackCount)
         == FrequentTopics(topics, counts, feedbackCount)
            + if IsFrequent(counts[t], feedbackCount) then [HighFrequencyTopic(t)] else []
  {
    assert (topics + [t])[..|topics|] == topics;
  }

  /** A topic is recommended exactly when it is listed and frequent; the
      warning is never among them; and no topic is recommended twice. */
  lemma {:induction false} FrequentTopicsMembers(topics: seq<string>, counts: multiset<string>, feedbackCount: nat)
    ensures forall t :: HighFrequencyTopic(t) in FrequentTopics(topics, counts, feedbackCount) <==>
              t in topics && IsFrequent(counts[t], feedbackCount)
    ensures CriticalSentiment !in FrequentTopics(topics, counts, feedbackCount)
    ensures NoDup(topics) ==> NoDup(FrequentTopics(topics, counts, feedbackCount))
    decreases |topics|
  {
    if topics != [] {
      var p := topics[..|topics| - 1];
      var t := topics[|topics| - 1];
      assert topics == p + [t];
      FrequentTopicsMembers(p, counts, feedbackCount);
      assert NoDup(topics) ==> NoDup(p) && t !in p;
    }
  }

  /** The recommendations for `feedbacks`: the negative-sentiment warning
      first, then one entry per frequent topic in order of first occurrence
      (the key order of the `topic_counts` dict). */
  function Recommendations(feedbacks: seq<Feedback>): seq<Recommendation>
  {
    var allTopics := AllTopics(feedbacks);
    (if SentimentIsNegative(Scores(feedbacks)) then [CriticalSentiment] else [])
    + FrequentTopics(Distinct(allTopics), multiset(allTopics), |feedbacks|)
  }

  /** The warning is given exactly when the average score is below 0.3,
      and then it comes first; no feedback gives no recommendation. */
  lemma RecommendationsWarning(feedbacks: seq<Feedback>)
    ensures CriticalSentiment in Recommendations(feedbacks) <==> SentimentIsNegative(Scores(feedbacks))
    ensures CriticalSentiment in Recommendations(feedbacks) ==> Recommendations(feedbacks)[0] == CriticalSentiment
    ensures feedbacks == [] ==> Recommendations(feedbacks) == []
  {
    FrequentTopicsMembers(Distinct(AllTopics(feedbacks)), multiset(AllTopics(feedbacks)), |feedbacks|);
  }

  /** A topic is recommended exactly when it occurs more often than in 30%
      of the feedbacks. */
  lemma RecommendationsTopics(feedbacks: seq<Feedback>)
    ensures forall t :: HighFrequencyTopic(t) in Recommendations(feedbacks) <==>
              IsFrequent(multiset(AllTopics(feedbacks))[t], |feedbacks|)
  {
    var allTopics := AllTopics(feedbacks);
    var head := if SentimentIsNegative(Scores(feedbacks)) then [CriticalSentiment] else [];
    var tail := FrequentTopics(Distinct(allTopics), multiset(allTopics), |feedbacks|);
    assert Recommendations(feedbacks) == head + tail;
    FrequentTopicsMembers(Distinct(allTopics), multiset(allTopics), |feedbacks|);
  }

  /** Nothing is recommended twice. */
  lemma RecommendationsNoDup(feedbacks: seq<Feedback>)
    ensures NoDup(Recommendations(feedbacks))
  {
    var allTopics := AllTopics(feedbacks);
    var head := if SentimentIsNegative(Scores(feedbacks)) then [CriticalSentiment] else [];
    var tail := FrequentTopics(Distinct(allTopics), multiset(allTopics), |feedbacks|);
    assert Recommendations(feedbacks) == head + tail;
    FrequentTopicsMembers(Distinct(allTopics), multiset(allTopics), |feedbacks|);
  }

  /** Lines 136-143 of `_generate_recommendations`: count the topic
      occurrences, then walk the counter in insertion order and recommend
      every topic counted more often than in 30% of the feedbacks. */
  method TopicRecommendations(allTopics: seq<string>, feedbackCount: nat) returns (recommendations: seq<Recommendation>)
    ensures recommendations == FrequentTopics(Distinct(allTopics), multiset(allTopics), feedbackCount)
  {
    var topicCounts := Tally(map[], allTopics);
    // a dict iterates in insertion order: each topic at its first occurrence
    var keys := Distinct(allTopics);
    recommendations := [];
    for k := 0 to |keys|
      invariant recommendations == FrequentTopics(keys[..k], multiset(allTopics), feedbackCount)
    {
      var topic := keys[k];
      assert keys[..k + 1] == keys[..k] + [topic];
      FrequentTopicsSnoc(keys[..k], topic, multiset(allTopics), feedbackCount);
      assert Get(topicCounts, topic) == multiset(allTopics)[topic];
      if topicCounts[topic] as real > feedbackCount as real * 0.3 {
        recommendations := recommendations + [HighFrequencyTopic(topic)];
      }
    }
    assert keys[..|keys|] == keys;
  }

  /** `_generate_recommendations`, with each message as its Recommendation. */
  method GenerateRecommendations(feedbacks: seq<Feedback>) returns (recommendations: seq<Recommendation>)
    ensures recommendations == Recommendations(feedbacks)
  {
    recommendations := [];
    var sentiments := Scores(feedbacks);
    if sentiments != [] && Mean(sentiments) < 0.3 {
      recommendations := recommendations + [CriticalSentiment];
    }
    var allTopics: seq<string> := [];
    for i := 0 to |feedbacks|
      invariant allTopics == AllTopics(feedbacks[..i])
    {
      assert feedbacks[..i + 1] == feedbacks[..i] + [feedbacks[i]];
      AllTopicsSnoc(feedbacks[..i], feedbacks[i]);
      allTopics := allTopics + feedbacks[i].topics;
    }
    assert feedbacks[..|feedbacks|] == feedbacks;
    var topicRecommendations := TopicRecommendations(allTopics, |feedbacks|);
    recommendations := recommendations + topicRecommendations;
  }
}
