/** The decision rules of backend/ml_utils.py. The transformer's score and
    spaCy's noun chunks and entities are inputs: the models themselves are
    not part of this model. */
module MlUtils {
  import opened Collections

  /** The three labels `analyze_sentiment` returns. */
  datatype Sentiment = Negative | Neutral | Positive
  {
    /** The label as stored in the database. */
    function Text(): string
    {
      match this
      case Negative => "negative"
      case Neutral => "neutral"
      case Positive => "positive"
    }

    /** negative < neutral < positive */
    function Rank(): nat
    {
      match this
      case Negative => 0
      case Neutral => 1
      case Positive => 2
    }
  }

  /** The thresholds applied to the classifier's score. */
  function AnalyzeSentiment(score: real): (verdict: Sentiment)
    ensures verdict == Positive <==> score > 0.6
    ensures verdict == Negative <==> score < 0.4
    ensures verdict == Neutral <==> 0.4 <= score <= 0.6
    ensures verdict.Text() in {"positive", "negative", "neutral"}
  {
    if score > 0.6 then Positive
    else if score < 0.4 then Negative
    else Neutral
  }

  /** A higher score never gives a lower verdict. */
  lemma SentimentMonotone(a: real, b: real)
    requires a <= b
    ensures AnalyzeSentiment(a).Rank() <= AnalyzeSentiment(b).Rank()
  {
  }

  /** `str.lower` on ASCII letters. */
  function LowerChar(c: char): char
  {
    if 'A' <= c <= 'Z' then (c as int + 32) as char else c
  }

  function Lower(s: string): (r: string)
    ensures |r| == |s|
    ensures forall i :: 0 <= i < |s| ==> r[i] == LowerChar(s[i])
  {
    seq(|s|, i requires 0 <= i < |s| => LowerChar(s[i]))
  }

  /** Lowering twice is lowering once: the topics come out already lowered. */
  lemma LowerIdempotent(s: string)
    ensures Lower(Lower(s)) == Lower(s)
  {
  }

  /** The lowered text of every span, in order. */
  function LowerAll(spans: seq<string>): (r: seq<string>)
    ensures |r| == |spans|
    ensures forall i :: 0 <= i < |spans| ==> r[i] == Lower(spans[i])
  {
    seq(|spans|, i requires 0 <= i < |spans| => Lower(spans[i]))
  }

  /** `extract_topics` once spaCy has produced the noun chunks and the
      entities: the lowered texts are collected in two loops and then
      de-duplicated through a set, so the order of the result is not fixed. */
  method ExtractTopics(nounChunks: seq<string>, entities: seq<string>) returns (topics: seq<string>)
    ensures NoDup(topics)
    ensures forall t :: t in topics <==> t in LowerAll(nounChunks) || t in LowerAll(entities)
    ensures forall t :: t in topics ==> Lower(t) == t
  {
    var collected: seq<string> := [];
    for i := 0 to |nounChunks|
      invariant collected == LowerAll(nounChunks[..i])
    {
      collected := collected + [Lower(nounChunks[i])];
    }
    assert nounChunks[..|nounChunks|] == nounChunks;
    for j := 0 to |entities|
      invariant collected == LowerAll(nounChunks) + LowerAll(entities[..j])
    {
      collected := collected + [Lower(entities[j])];
    }
    assert entities[..|entities|] == entities;
    // list(set(topics)): each element of the set once, in an unspecified order
    var unique := set t | t in collected;
    var rest := unique;
    topics := [];
    while rest != {}
      invariant rest <= unique
      invariant NoDup(topics)
      invariant forall t :: t in topics <==> t in unique && t !in rest
      decreases |rest|
    {
      var t := Pick(rest);
      topics := topics + [t];
      rest := rest - {t};
    }
    forall t | t in topics ensures Lower(t) == t {
      var k :| 0 <= k < |collected| && collected[k] == t;
      if k < |nounChunks| {
        assert t == Lower(nounChunks[k]);
        LowerIdempotent(nounChunks[k]);
      } else {
        assert t == Lower(entities[k - |nounChunks|]);
        LowerIdempotent(entities[k - |nounChunks|]);
      }
    }
  }

  /** Any two results of `ExtractTopics` on the same input hold the same
      topics, each once: they differ at most in order. */
  lemma ExtractTopicsUpToOrder(nounChunks: seq<string>, entities: seq<string>, a: seq<string>, b: seq<string>)
    requires NoDup(a) && NoDup(b)
    requires forall t :: t in a <==> t in LowerAll(nounChunks) || t in LowerAll(entities)
    requires forall t :: t in b <==> t in LowerAll(nounChunks) || t in LowerAll(entities)
    ensures multiset(a) == multiset(b)
  {
    SameElementsPermutation(a, b);
  }
}
