/**
 * The e-mail analysis endpoint: send subject and body to the zero-shot
 * classifier with the fixed candidate labels, then rank what comes back
 * into a primary label and the list of labels above the threshold.
 *
 * The blocking upstream call is not modelled; its outcome is the input
 * `ZeroShotReply`.
 */
module EmailAnalyzerController {
  import opened Wrappers
  import opened LabelMapping
  import opened Ranking

  datatype EmailAnalyzeRequest = EmailAnalyzeRequest(sender: string, subject: string, body: string)

  datatype EmailAnalyzeResponse = EmailAnalyzeResponse(
    sender: string, subject: string, body: string,
    lab: string, score: real,
    // `None` where the response carries `null`
    detailedPredictions: Option<seq<Prediction>>,
    message: string)

  /** The body of the classifier request. */
  datatype ZeroShotRequest = ZeroShotRequest(inputs: string, candidateLabels: seq<string>, multiLabel: bool)

  /** What the blocking classifier call produced. */
  datatype ZeroShotReply =
      // the call threw; its message
    | CallFailed(message: string)
      // the call succeeded with no body
    | NoBody
      // a decoded body, with or without its `labels` and `scores` keys
    | Body(labels: Option<seq<string>>, scores: Option<seq<real>>)

  /** What the endpoint hands back: a response with its HTTP status, or an exception it does not catch. */
  datatype Outcome =
    | Respond(status: int, response: EmailAnalyzeResponse)
      // `scores.get(i)` past the end of the scores list
    | IndexOutOfBounds

  const Unknown := "UNKNOWN"
  const Unclear := "UNCLEAR"
  const ApiError := "API_ERROR"
  const AiParseError := "AI_PARSE_ERROR"
  const CompleteMessage := "Email analysis complete."
  const FailurePrefix := "Failed to analyze email with AI: "
  const NoClearPrediction := Prediction("No clear prediction above threshold", 0.0)
  const InvalidStructure := Prediction("AI response structure invalid", 0.0)

  /** The body has both keys the ranking reads. */
  predicate WellFormed(reply: ZeroShotReply) {
    reply.Body? && reply.labels.Some? && reply.scores.Some?
  }

  /** The request sent to the classifier: subject and body separated by one space, all candidate labels, multi-label. */
  function ClassifierRequest(request: EmailAnalyzeRequest): (r: ZeroShotRequest)
    ensures |r.inputs| == |request.subject| + 1 + |request.body|
    ensures r.inputs[..|request.subject|] == request.subject && r.inputs[|request.subject|] == ' '
    ensures r.inputs[|request.subject| + 1..] == request.body
    ensures r.multiLabel
    ensures r.candidateLabels == CandidateLabels && |r.candidateLabels| == 8
    ensures forall i :: 0 <= i < |r.candidateLabels| ==> MapZeroShotLabel(r.candidateLabels[i]) != Other
  {
    CandidateLabelsCovered();
    var inputs := request.subject + " " + request.body;
    assert inputs[|request.subject| + 1..] == request.body;
    ZeroShotRequest(inputs, CandidateLabels, true)
  }

  /** No label the mapping produces can be mistaken for one of the endpoint's status labels. */
  lemma MappedLabelsAreNotSentinels(s: string)
    ensures MapZeroShotLabel(s) != Unknown && MapZeroShotLabel(s) != Unclear
    ensures MapZeroShotLabel(s) != ApiError && MapZeroShotLabel(s) != AiParseError
  {
    MapIntoLabelSet(s);
    if MapZeroShotLabel(s) != Other {
      var n :| 0 <= n < |Vocabulary| && MapZeroShotLabel(s) == Vocabulary[n].1;
      assert n == 0 || n == 1 || n == 2 || n == 3 || n == 4 || n == 5 || n == 6 || n == 7;
    }
  }

  /**
   * The endpoint. A failed call is answered with 500 and no list; a body
   * without `labels` or `scores` with 200 and a parse-error entry;
   * otherwise the ranked pairs decide the primary label and the detailed
   * list, with a sentinel entry when nothing passes the threshold.
   */
  method AnalyzeEmail(request: EmailAnalyzeRequest, reply: ZeroShotReply) returns (r: Outcome)
    // every response echoes the request and never carries the placeholder label
    ensures r.Respond? ==> r.response.sender == request.sender && r.response.subject == request.subject
                           && r.response.body == request.body
    ensures r.Respond? ==> r.response.lab != Unknown
    // a 200 always has a non-empty detailed list
    ensures r.Respond? && r.status == 200 ==>
      r.response.detailedPredictions.Some? && r.response.detailedPredictions.value != []
      && r.response.message == CompleteMessage
    // the call failed
    ensures reply.CallFailed? ==>
      r.Respond? && r.status == 500 && r.response.lab == ApiError && r.response.score == 0.0
      && r.response.detailedPredictions == None && r.response.message == FailurePrefix + reply.message
    // the body lacks what the ranking reads
    ensures !reply.CallFailed? && !WellFormed(reply) ==>
      r.Respond? && r.status == 200 && r.response.lab == AiParseError && r.response.score == 0.0
      && r.response.detailedPredictions == Some([InvalidStructure])
    // more labels than scores
    ensures r.IndexOutOfBounds? <==> WellFormed(reply) && |reply.labels.value| > |reply.scores.value|
    // a well-formed answer
    ensures WellFormed(reply) && |reply.labels.value| <= |reply.scores.value| ==>
      var labels, scores := reply.labels.value, reply.scores.value;
      var raw := Zip(labels, scores);
      var kept := RemapAll(SortByScore(Above(raw)));
      && r.Respond? && r.status == 200
      // never more entries than labels
      && |kept| <= |labels|
      // nothing above the threshold
      && (kept == [] <==> forall k :: 0 <= k < |labels| ==> scores[k] <= Threshold)
      && (kept == [] ==>
            r.response.lab == Unclear && r.response.score == 0.0
            && r.response.detailedPredictions == Some([NoClearPrediction]))
      // the detailed list is the raw pairs above the threshold, stably sorted, remapped
      && (kept != [] ==>
            r.response.detailedPredictions == Some(kept)
            && r.response.lab == kept[0].lab && r.response.score == kept[0].score
            && SortedDesc(kept) && (forall k :: 0 <= k < |kept| ==> kept[k].score > Threshold))
      // and its head is the first pair with the top score
      && (kept != [] ==>
            exists i :: 0 <= i < |labels|
              && r.response.lab == MapZeroShotLabel(labels[i]) && r.response.score == scores[i]
              && (forall j :: 0 <= j < i ==> scores[j] < scores[i])
              && (forall j :: i <= j < |labels| ==> scores[j] <= scores[i]))
  {
    if reply.CallFailed? {
      return Respond(500, EmailAnalyzeResponse(request.sender, request.subject, request.body,
                                               ApiError, 0.0, None, FailurePrefix + reply.message));
    }
    if !WellFormed(reply) {
      return Respond(200, EmailAnalyzeResponse(request.sender, request.subject, request.body,
                                               AiParseError, 0.0, Some([InvalidStructure]), CompleteMessage));
    }
    var labels, scores := reply.labels.value, reply.scores.value;
    var paired := PairUp(labels, scores);
    if paired.None? {
      return IndexOutOfBounds;
    }
    var sorted := SortByScore(paired.value);
    var primaryLabel, primaryScore := Unknown, 0.0;
    var detailed: seq<Prediction> := [];
    if sorted != [] {
      primaryLabel := MapZeroShotLabel(sorted[0].lab);
      primaryScore := sorted[0].score;
      detailed := KeepAbove(sorted);
    }
    FilterCommutesWithSort(paired.value);
    NoScoreAboveThreshold(labels, scores);
    KeepIsRemappedPrefix(sorted);
    assert |sorted| == |multiset(sorted)| == |multiset(paired.value)| == |labels|;
    if detailed == [] {
      primaryLabel, primaryScore := Unclear, 0.0;
      detailed := [NoClearPrediction];
    } else {
      KeptHeadIsPrimary(sorted);
      DetailedRankedAboveThreshold(paired.value);
      TopPairOfClassifier(labels, scores);
      MappedLabelsAreNotSentinels(sorted[0].lab);
    }
    return Respond(200, EmailAnalyzeResponse(request.sender, request.subject, request.body,
                                             primaryLabel, primaryScore, Some(detailed), CompleteMessage));
  }

  /** The zip loop: each label with the score at its index, or `None` where the scores run out. */
  method PairUp(labels: seq<string>, scores: seq<real>) returns (raw: Option<seq<Prediction>>)
    ensures raw.None? <==> |labels| > |scores|
    ensures raw.Some? ==> raw.value == Zip(labels, scores)
  {
    var acc: seq<Prediction> := [];
    var i := 0;
    while i < |labels|
      invariant 0 <= i <= |labels| && i <= |scores|
      invariant |acc| == i
      invariant forall m :: 0 <= m < i ==> acc[m] == Prediction(labels[m], scores[m])
    {
      if i >= |scores| {
        return None;
      }
      acc := acc + [Prediction(labels[i], scores[i])];
      i := i + 1;
    }
    return Some(acc);
  }

  /** The filter loop over the sorted pairs. */
  method KeepAbove(sorted: seq<Prediction>) returns (detailed: seq<Prediction>)
    ensures detailed == KeepAboveThreshold(sorted)
  {
    detailed := [];
    var k := 0;
    while k < |sorted|
      invariant 0 <= k <= |sorted|
      invariant detailed == KeepAboveThreshold(sorted[..k])
    {
      assert sorted[..k + 1][..k] == sorted[..k];
      if sorted[k].score > Threshold {
        detailed := detailed + [Remap(sorted[k])];
      }
      k := k + 1;
    }
    assert sorted[..k] == sorted;
  }

  /** Nothing passes the threshold exactly when no score the classifier returned is above it. */
  lemma NoScoreAboveThreshold(labels: seq<string>, scores: seq<real>)
    requires |labels| <= |scores|
    ensures RemapAll(SortByScore(Above(Zip(labels, scores)))) == [] <==>
              forall k :: 0 <= k < |labels| ==> scores[k] <= Threshold
  {
    var raw := Zip(labels, scores);
    FilterCommutesWithSort(raw);
    NothingAboveThreshold(raw);
    assert forall k :: 0 <= k < |labels| ==> raw[k].score == scores[k];
  }

  /** The head of the ranking is the first label with the top score. */
  lemma TopPairOfClassifier(labels: seq<string>, scores: seq<real>)
    requires |labels| <= |scores| && labels != []
    ensures SortByScore(Zip(labels, scores)) != []
    ensures exists i :: 0 <= i < |labels|
              && SortByScore(Zip(labels, scores))[0] == Prediction(labels[i], scores[i])
              && (forall j :: 0 <= j < i ==> scores[j] < scores[i])
              && (forall j :: i <= j < |labels| ==> scores[j] <= scores[i])
  {
    var raw := Zip(labels, scores);
    var i := FirstMaximumIndex(raw);
    TopPairAt(raw, labels, scores, i);
  }

  /** The facts about the first maximal raw entry, read on the classifier's lists. */
  lemma TopPairAt(raw: seq<Prediction>, labels: seq<string>, scores: seq<real>, i: nat)
    requires |raw| == |labels| <= |scores| && i < |raw|
    requires forall k :: 0 <= k < |raw| ==> raw[k] == Prediction(labels[k], scores[k])
    requires forall j :: 0 <= j < i ==> raw[j].score < raw[i].score
    requires forall j :: i <= j < |raw| ==> raw[j].score <= raw[i].score
    ensures raw[i] == Prediction(labels[i], scores[i])
    ensures forall j :: 0 <= j < i ==> scores[j] < scores[i]
    ensures forall j :: i <= j < |labels| ==> scores[j] <= scores[i]
  {
  }
}
