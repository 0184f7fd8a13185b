# Feedback analytics core, modelled in Dafny

This project models the aggregation and classification rules of a customer
feedback analysis application and proves properties of them. The application
has a Python backend and a React frontend.

- **Sentiment and topics of one text** (`MlUtils`, backend/ml_utils.py).
  - The model covers only the rules applied to the models' outputs. The
    transformer's score becomes a label through the 0.4 / 0.6 thresholds.
  - spaCy's noun chunks and named entities are lowered and de-duplicated
    into a topic list.
  - The score, the noun chunks and the entities are parameters.
- **Topic histogram** (`TopicAnalytics`, backend/main.py). This is the
  `/analytics/topics` endpoint, which counts every topic occurrence over all
  stored feedback rows. The database query result is a parameter: one topic
  list per row.
- **Trend analysis and recommendations** (`AdvancedAnalytics`,
  backend/app/services/analytics.py).
  - `analyze_trends` sorts the feedbacks by creation time. It then groups
    one score list and one topic counter per day.
  - The daily min/max are taken, and the date→topic→count counters are
    pivoted into topic→date→count with zeros filled in.
  - `_generate_recommendations` emits a warning when the average score is
    below 0.3. It emits one message per topic whose number of occurrences
    over all topic lists exceeds 0.3 times the number of feedbacks.
  - Each feedback carries its creation time in microseconds, plus the score and
    topic list the analyzer produced for it.
- **Connection registry** (`ConnectionRegistry`,
  backend/app/api/endpoints/websocket.py).
  - `ConnectionManager` is a class with two fields: the list of all
    connections and a map from user to that user's connections. `connect`
    and `disconnect` update both in place.
  - Connections are identified by numbers.
  - `broadcast` and `send_personal_message` return the connections they
    would send to.
  - The central invariant is `Consistent()`: the list of all connections
    holds exactly the connections of the user lists, with multiplicity.
    `connect`, and `disconnect` with the same user id as the endpoint uses,
    preserve it.
- **Analytics view** (`AnalyticsView`, frontend/src/components/Analytics.tsx).
  - It computes the total of the sentiment counts.
  - It ranks the ten most mentioned topics and derives each bar's width
    from the largest count.
  - `Object.values` and `Object.entries` are taken as the sequences they
    produce.

`Collections` holds the shared vocabulary:
- `Option`
- `Get` (dictionary `get(k, 0)`)
- `Flatten`, `NoDup`, `Distinct` (first-occurrence order)
- the multiset `Bag` of a map of lists
- the counting method `Tally` and its specification `Tallies`

`Sorting` holds an insertion sort by an integer key, proved stable. It stands
for Python's `sorted(key=...)` and JavaScript's `Array.prototype.sort`, which
are both stable.

Where the code and its prose differ, the model follows the code:
- `extract_topics` promises "important nouns and noun phrases". The code
  returns every lowered noun chunk and entity.
- `_generate_recommendations` describes its threshold as "topic appears
  in > 30% of feedbacks". The code counts occurrences, so a feedback that
  lists a topic twice counts twice.
- `disconnect` assumes the connection is present. The code lets
  `list.remove` raise `ValueError`. This is modelled as an outcome, and the
  first removal stands when the second one fails.

## Model

| member | source | states |
|---|---|---|
| MlUtils.AnalyzeSentiment | backend/ml_utils.py:18-23 | positive iff the score is above 0.6, negative iff below 0.4, neutral iff it lies in [0.4, 0.6] (both boundaries neutral); the label text is always one of the three strings |
| MlUtils.SentimentMonotone | backend/ml_utils.py:18-23 | a higher score never gives a lower label in the order negative < neutral < positive |
| MlUtils.Lower | backend/ml_utils.py:37-41 | `str.lower` keeps the length and lowers every character |
| MlUtils.LowerIdempotent | backend/ml_utils.py:37-41 | lowering a text that is already lowered changes nothing |
| MlUtils.ExtractTopics | backend/ml_utils.py:33-44 | the result has no duplicates, and holds exactly the lowered noun-chunk texts together with the lowered entity texts; every topic returned is already lower case |
| MlUtils.ExtractTopicsUpToOrder | backend/ml_utils.py:44 | any two results for the same spans are permutations of each other, so the result is fixed up to order |
| TopicAnalytics.GetTopicAnalytics | backend/main.py:76-83 | each topic's count is its number of occurrences over all rows; the keys are exactly the topics of some row, each count is at least 1; the counts add up to the number of topic occurrences; no rows give an empty distribution |
| TopicAnalytics.CountedTopics | backend/main.py:79-80 | a counter of all topic occurrences has keys exactly for the topics of some row, each with a positive count |
| TopicAnalytics.DistributionIgnoresRowOrder | backend/main.py:76-80 | rows in any order give the same distribution |
| Collections.Tally | backend/main.py:79-80 | counting a list into a counter adds each item's number of occurrences to its count, adds keys exactly for the new items, and grows the total by the list's length |
| AdvancedAnalytics.DayMonotone | backend/app/services/analytics.py:21-28 | a later creation time never has an earlier date |
| AdvancedAnalytics.SortedDays | backend/app/services/analytics.py:21-28 | along the time-sorted list the dates never decrease, so the loop meets the days in chronological order |
| AdvancedAnalytics.OnDaySorted | backend/app/services/analytics.py:21-34 | the feedbacks of one day, taken from the time-sorted list, are in creation-time order, so each day's score list is in timestamp order |
| AdvancedAnalytics.ScoresStep | backend/app/services/analytics.py:32-34 | appending a feedback's score to its own day's list (creating the list if needed) keeps every day's list equal to the scores of that day's feedbacks, and the total length equal to the number of feedbacks |
| AdvancedAnalytics.TopicsStep | backend/app/services/analytics.py:37-40 | counting a feedback's topics into its own day's counter (creating it if needed) keeps every day's counter equal to the topic occurrences of that day's feedbacks |
| AdvancedAnalytics.GroupByDay | backend/app/services/analytics.py:24-40 | the days grouped are exactly the days of the feedbacks; each day's score list is the scores of that day's feedbacks in list order, and the list lengths add up to the number of feedbacks; each day's counter counts the topic occurrences of that day's feedbacks |
| AdvancedAnalytics.GroupedDays | backend/app/services/analytics.py:27-40 | both groupings have the same days, exactly the days that some feedback has, and no day has an empty score list |
| AdvancedAnalytics.GroupedTopics | backend/app/services/analytics.py:37-40 | a topic is counted on some day exactly when some feedback lists it |
| AdvancedAnalytics.Min | backend/app/services/analytics.py:86 | `min` of a non-empty list is one of its elements and no greater than any |
| AdvancedAnalytics.Max | backend/app/services/analytics.py:87 | `max` of a non-empty list is one of its elements and no less than any |
| AdvancedAnalytics.SentimentTrends | backend/app/services/analytics.py:81-90 | fails (as `min` of an empty list would) exactly when some day has no scores; otherwise one entry per day whose min and max are scores of that day, bound all of them, and satisfy min <= max |
| AdvancedAnalytics.DateColumn | backend/app/services/analytics.py:99-102 | one entry per date, holding the topic's count that day, or 0 when the date's counter lacks it |
| AdvancedAnalytics.TopicTrends | backend/app/services/analytics.py:92-103 | the keys are exactly the topics counted on some date; every topic has one entry per date, holding that date's count or 0 |
| AdvancedAnalytics.TopicTrendsLoseNothing | backend/app/services/analytics.py:99-102 | when all counts are positive, the pivot can be read back into the original date counters |
| AdvancedAnalytics.GroupedCountsPositive | backend/app/services/analytics.py:37-40 | every topic in a day's counter has a positive count, which is what the pivot needs to be reversible |
| AdvancedAnalytics.TrendRows | backend/app/services/analytics.py:92-103 | reading a day back out of the topic trends gives a counter of exactly that day's topic occurrences |
| AdvancedAnalytics.DayTopicsPermutation | backend/app/services/analytics.py:21 | a day's topic occurrences do not depend on the order of the feedbacks, so sorting first does not change them |
| AdvancedAnalytics.RangePermutation | backend/app/services/analytics.py:21-34 | the min/max of a day's scores do not depend on the order of the feedbacks |
| AdvancedAnalytics.AnalyzeTrends | backend/app/services/analytics.py:18-44 | the sentiment trends have exactly the days of the feedbacks, each giving the least and greatest score of that day; the topic trends have exactly the topics some feedback lists, each with one entry per day that counts its occurrences that day (0 when absent); each day read back out of the topic trends counts exactly that day's topic occurrences |
| AdvancedAnalytics.Recommendation.Message | backend/app/services/analytics.py:129-143 | the warning's fixed text; a topic's message is the text "High frequency topic '", the topic, then "' requires attention", so the topic can be read back |
| AdvancedAnalytics.MessageInjective | backend/app/services/analytics.py:129-143 | two recommendations with the same text are the same recommendation |
| AdvancedAnalytics.FrequentTopicsMembers | backend/app/services/analytics.py:141-143 | a topic is recommended iff it is listed and counted more often than 0.3 times the number of feedbacks; the warning is never among them; topics listed once are recommended at most once |
| AdvancedAnalytics.TopicRecommendations | backend/app/services/analytics.py:136-143 | the counting loop followed by the walk over the counter in insertion order emits the frequent topics in order of first occurrence |
| AdvancedAnalytics.GenerateRecommendations | backend/app/services/analytics.py:119-145 | the result is the warning (when due) followed by the frequent-topic messages in first-occurrence order |
| AdvancedAnalytics.RecommendationsWarning | backend/app/services/analytics.py:121-129 | the warning is present iff there is feedback and the average score is below 0.3; when present it comes first; no feedback gives no recommendation at all |
| AdvancedAnalytics.RecommendationsTopics | backend/app/services/analytics.py:132-143 | a topic is recommended iff its total number of occurrences exceeds 0.3 times the number of feedbacks |
| AdvancedAnalytics.RecommendationsNoDup | backend/app/services/analytics.py:119-145 | no recommendation is given twice |
| ConnectionRegistry.FirstIndex | backend/app/api/endpoints/websocket.py:22-24 | the index found holds the connection, and no earlier position does |
| ConnectionRegistry.RemoveFirst | backend/app/api/endpoints/websocket.py:22-24 | removal takes out the first occurrence of the connection and keeps every other element in order, so the multiset loses one copy and the length drops by one |
| ConnectionRegistry.RemoveFirstAppended | backend/app/api/endpoints/websocket.py:16-22 | removing a connection that was just appended to a list that did not hold it gives the list back |
| ConnectionRegistry.ConnectionManager.constructor | backend/app/api/endpoints/websocket.py:10-12 | both registries start empty, which is consistent |
| ConnectionRegistry.ConnectionManager.Connect | backend/app/api/endpoints/websocket.py:14-19 | the connection is appended to the list of all connections and to the user's list (created empty when absent); every other user's list is unchanged; consistency is preserved |
| ConnectionRegistry.ConnectionManager.Disconnect | backend/app/api/endpoints/websocket.py:21-24 | `ValueError` when the connection is not active, with nothing changed; otherwise its first occurrence is removed from the active list; then, when the user is known, removed from the user's list with the key kept even if it empties, or `ValueError` when it is not there; with the user it was connected under, consistency is preserved and the call cannot fail |
| ConnectionRegistry.ConnectionManager.Broadcast | backend/app/api/endpoints/websocket.py:26-28 | the recipients are exactly the active connections, in order |
| ConnectionRegistry.ConnectionManager.SendPersonalMessage | backend/app/api/endpoints/websocket.py:30-33 | the recipients are exactly the user's connections in order, or none for an unknown user |
| ConnectionRegistry.ConnectKeepsConsistent | backend/app/api/endpoints/websocket.py:16-19 | appending a connection to both registries keeps them consistent |
| ConnectionRegistry.DisconnectKeepsConsistent | backend/app/api/endpoints/websocket.py:21-24 | in a consistent registry, a connection listed under a user is active, and removing it from both lists keeps the registry consistent |
| ConnectionRegistry.ConnectThenDisconnect | backend/app/api/endpoints/websocket.py:14-24 | connecting a new connection and then disconnecting it restores the list of all connections and every user's connections |
| ConnectionRegistry.PersonalWithinBroadcast | backend/app/api/endpoints/websocket.py:26-33 | in a consistent registry, everyone a personal message reaches is also reached by a broadcast |
| AnalyticsView.Reduce | frontend/src/components/Analytics.tsx:65 | the left fold adds every value to its seed: the result is the seed plus the sum |
| AnalyticsView.TotalSentiments | frontend/src/components/Analytics.tsx:64-66 | the total is the sum of all counts, and 0 when there is no data |
| AnalyticsView.CountWithinTotal | frontend/src/components/Analytics.tsx:64-93 | with non-negative counts, no count exceeds the total, so no percentage exceeds 100 |
| AnalyticsView.TopTopics | frontend/src/components/Analytics.tsx:114-117 | at most ten topics (exactly ten when there are more); in non-increasing count order; every one is an entry of the data with its count unchanged |
| AnalyticsView.TopTopicsOmitted | frontend/src/components/Analytics.tsx:115-116 | every topic left out has a count no greater than any listed topic |
| AnalyticsView.TopTopicsStable | frontend/src/components/Analytics.tsx:114-117 | for every count, the topics listed with it are the first topics of that count in `Object.entries` order, in that order |
| AnalyticsView.TopTopicsAllWhenFew | frontend/src/components/Analytics.tsx:116 | with at most ten topics, all of them are listed |
| AnalyticsView.TopTopicsDistinct | frontend/src/components/Analytics.tsx:114-117 | since object keys are distinct, no topic is listed twice |
| AnalyticsView.Counts | frontend/src/components/Analytics.tsx:133 | `Object.values`: one count per entry, in the order of the entries |
| AnalyticsView.MaxCount | frontend/src/components/Analytics.tsx:133 | the maximum is one of the counts and bounds all of them |
| AnalyticsView.BarWithinFullWidth | frontend/src/components/Analytics.tsx:133 | no listed count exceeds the maximum count, so no bar is wider than the full width |
| Sorting.SortBy | frontend/src/components/Analytics.tsx:115 | the result is ordered by the key and is a permutation of the input |
| Sorting.SortByStable | backend/app/services/analytics.py:21 | the sort is stable: for every key, the elements with that key keep their input order |

## Left out

- Machine-learning models: the transformers pipeline, spaCy, TextBlob, TF-IDF and KMeans are foreign code. Their outputs are parameters. This covers `cluster_feedbacks`, `_get_cluster_terms`, `_get_avg_sentiment` and the analyzer calls in `analyze_trends` and `_generate_recommendations`.
- AdvancedAnalytics.SentimentTrends: `np.mean` and `np.std` of each day (the `average` and `std` entries) are floating-point library results and are not modelled. Only `min` and `max` are.
- AdvancedAnalytics.AnalyzeTrends: `overall_stats` is not modelled. `_calculate_overall_stats` is called at backend/app/services/analytics.py:45 but is not defined in the class, so the source as written raises `AttributeError` on every call after computing the two trends. The model returns the report of those two trends instead.
- `generate_report` is left out: it only composes other calls and reads the clock.
- AdvancedAnalytics.Mean: scores and thresholds are exact reals. Floating-point rounding is not modelled. The NaN mean of an empty list is modelled by its one observable effect: the comparison `< 0.3` is false.
- AdvancedAnalytics.Day: `created_at.date()` is the creation time in microseconds divided by 86400000000, rounded down, so feedbacks are sorted by the full `datetime` resolution. Time zones are not modelled. `isoformat()` date keys are these day numbers, which is faithful because isoformat is injective on dates.
- AdvancedAnalytics.SentimentTrends and AdvancedAnalytics.TopicTrends: dictionary and set iteration order is left unspecified. The results are maps, so the order does not show in them.
- MlUtils.Lower: `str.lower` is modelled on ASCII letters only. Unicode case mapping is not modelled.
- MlUtils.ExtractTopics: the result order of `list(set(...))` is left unspecified. The contract fixes the result only up to order.
- TopicAnalytics.GetTopicAnalytics: the result is a map, so the key order of the dict is not modelled. That order is the order of first occurrence, and it reaches the client as the JSON key order. `Object.entries` does not keep it exactly: keys that are array indices (topics such as "3" or "2023") come first, in ascending numeric order, and then the other keys in JSON order. The view takes whatever sequence `Object.entries` yields as its input, so ties at the top-ten cut are stated relative to that sequence.
- Database and ORM: the queries, commits, offset/limit and the retrying connect of backend/database.py are I/O. The other endpoints of backend/main.py are not modelled.
- Async WebSocket I/O: `accept`, `send_json`, the receive loop and the disconnect exception handling of the endpoint are not modelled. Only the registry bookkeeping and the choice of recipients are.
- ConnectionRegistry.ConnectionManager.Broadcast: the recipients are those of the list when the call starts. A `connect` or `disconnect` interleaved at an `await` changes the list while it is being iterated, and a failing `send_json` ends the loop early. Neither is modelled.
- ConnectionRegistry.ConnectionManager.SendPersonalMessage: as for `Broadcast`, neither interleaving at the `await`s nor a failing `send_json` is modelled.
- UI: React rendering, data fetching, the percentage formatting with `toFixed` and the word cloud are not modelled. The word cloud's layout is done by the external d3-cloud library.
