/**
 * The domain-safety check: validate the string, send it to the hosted
 * entity-recognition model, and turn what comes back into one response.
 *
 * The blocking upstream call is not modelled; its outcome is the input
 * `InferenceReply`. The `%.2f` rendering of a score is the parameter
 * `scoreText`, and the status-code rendering of an HTTP error is carried
 * in the reply itself.
 */
module DomainCheckService {
  import opened Wrappers
  import opened DomainFormat

  /** One entity the upstream model found (`entity_group`, `score`, `word`, `start`, `end`). */
  datatype EntityPrediction = EntityPrediction(entityGroup: string, score: real, word: string, start: int, end: int)

  datatype Status = InvalidFormat | Clean | PiiDetected | PotentiallyMaliciousPii | Error {
    /** The status string the service puts on the wire. */
    function Name(): string {
      match this
      case InvalidFormat => "INVALID_FORMAT"
      case Clean => "CLEAN"
      case PiiDetected => "PII_DETECTED"
      case PotentiallyMaliciousPii => "POTENTIALLY_MALICIOUS_PII"
      case Error => "ERROR"
    }
  }

  /** Distinct statuses go out as distinct strings, so a client can tell them apart. */
  lemma StatusNamesDistinct(a: Status, b: Status)
    ensures a.Name() == b.Name() <==> a == b
  {
    if a != b {
      assert a.Name()[0] != b.Name()[0] || |a.Name()| != |b.Name()|;
    }
  }

  datatype DomainCheckResponse = DomainCheckResponse(domain: string, status: Status, message: string, confidence: real)

  /** What the blocking upstream call produced. */
  datatype InferenceReply =
    | Entities(predictions: seq<EntityPrediction>)
      // a successful reply whose body decoded to no list at all
    | NullBody
      // the call threw a `WebClientResponseException`: status code, its rendering, reason phrase and response body
    | HttpError(code: int, codeText: string, statusText: string, body: string)
      // any other failure: the exception's simple class name and its message
    | OtherFailure(kind: string, detail: string)

  /** The entity types the upstream model is asked to look for. */
  const PiiLabels: seq<string> := [
    "EMAIL_ADDRESS", "IP_ADDRESS", "URL", "PHONE_NUMBER",
    "CREDIT_CARD_NUMBER", "PERSON", "LOCATION", "ORGANIZATION",
    "DATE", "TIME"
  ]

  /** The body of the upstream request: the text to analyse and the entity types. */
  datatype InferenceRequest = InferenceRequest(inputs: string, labels: seq<string>)

  const InvalidFormatMessage := "The provided domain or URL format is invalid."
  const NoEntitiesMessage := "No specific PII entities found in the domain/URL."
  const DetectedPrefix := "Detected PII entities: "
  const MaliciousPrefix := "Detected potentially malicious PII (like IP/Email): "
  const AuthFailedMessage := "AI service authentication failed. Check your Hugging Face API token."
  const RateLimitMessage := "AI service rate limit exceeded. Please try again later."
  const BadRequestPrefix := "Invalid request to AI service. Check input format or model compatibility. Details: "
  const ServerErrorPrefix := "AI service internal error. Service might be temporarily unavailable. Details: "
  const ServiceErrorPrefix := "Error from AI service: "
  const UnexpectedPrefix := "An unexpected error occurred during domain analysis. Please try again. Details: "

  /** The request sent upstream, or none when the domain is rejected before any call. */
  function UpstreamRequest(domain: string): (r: Option<InferenceRequest>)
    ensures r.None? <==> !IsValidDomain(domain)
    ensures r.Some? ==> r.value.inputs == domain && r.value.labels == PiiLabels
  {
    if IsValidDomain(domain) then Some(InferenceRequest(domain, PiiLabels)) else None
  }

  /** The entity types whose presence escalates the status (compared case-sensitively). */
  predicate IsEscalating(group: string) {
    group == "IP_ADDRESS" || group == "EMAIL_ADDRESS"
  }

  /** The largest score of a non-empty list of entities. */
  function MaxScore(ps: seq<EntityPrediction>): (m: real)
    requires |ps| > 0
    ensures forall i :: 0 <= i < |ps| ==> ps[i].score <= m
    ensures exists i :: 0 <= i < |ps| && ps[i].score == m
  {
    if |ps| == 1 then ps[0].score
    else
      var rest := MaxScore(ps[1..]);
      if ps[0].score >= rest then ps[0].score else rest
  }

  /** One entry of the message: `GROUP: 'word' (score: 0.95)`. */
  function EntityText(p: EntityPrediction, scoreText: real -> string): string {
    p.entityGroup + ": '" + p.word + "' (score: " + scoreText(p.score) + ")"
  }

  /** The entries of all entities, in order, joined by `", "`. */
  function Listing(ps: seq<EntityPrediction>, scoreText: real -> string): string {
    if |ps| == 0 then ""
    else if |ps| == 1 then EntityText(ps[0], scoreText)
    else EntityText(ps[0], scoreText) + ", " + Listing(ps[1..], scoreText)
  }

  /** The message for an upstream HTTP error; 401 and 429 are singled out before the 4xx range. */
  function ServiceErrorMessage(code: int, codeText: string, statusText: string, body: string): (m: string)
    ensures code == 401 ==> m == AuthFailedMessage
    ensures code == 429 ==> m == RateLimitMessage
    ensures 400 <= code < 500 && code != 401 && code != 429 ==> m == BadRequestPrefix + body
    ensures 500 <= code < 600 ==> m == ServerErrorPrefix + body
    ensures !(400 <= code < 600) ==> m == ServiceErrorPrefix + codeText + " - " + statusText
  {
    if code == 401 then AuthFailedMessage
    else if code == 429 then RateLimitMessage
    else if code / 100 == 4 then BadRequestPrefix + body
    else if code / 100 == 5 then ServerErrorPrefix + body
    else ServiceErrorPrefix + codeText + " - " + statusText
  }

  /** The response for a list of entities the upstream model returned. */
  function Classify(domain: string, ps: seq<EntityPrediction>, scoreText: real -> string): DomainCheckResponse {
    if ps == [] then
      DomainCheckResponse(domain, Clean, NoEntitiesMessage, 1.0)
    else
      var listing := Listing(ps, scoreText);
      var confidence := MaxScore(ps);
      if exists i :: 0 <= i < |ps| && IsEscalating(ps[i].entityGroup) then
        DomainCheckResponse(domain, PotentiallyMaliciousPii, MaliciousPrefix + listing, confidence)
      else
        DomainCheckResponse(domain, PiiDetected, DetectedPrefix + listing, confidence)
  }

  /** The whole check: validation first, then the upstream outcome. */
  function CheckDomainSafety(domain: string, reply: InferenceReply, scoreText: real -> string): (r: DomainCheckResponse)
    // every path echoes the domain
    ensures r.domain == domain
    // a malformed string short-circuits, whatever the upstream would have said
    ensures !IsValidDomain(domain) ==> r.status == InvalidFormat && r.message == InvalidFormatMessage && r.confidence == 0.0
    ensures r.status == InvalidFormat ==> !IsValidDomain(domain)
    // nothing found means clean
    ensures r.status == Clean <==> IsValidDomain(domain) && (reply.NullBody? || reply == Entities([]))
    ensures r.status == Clean ==> r.message == NoEntitiesMessage && r.confidence == 1.0
    // entities found: status, confidence and message
    ensures IsValidDomain(domain) && reply.Entities? && reply.predictions != [] ==>
      var ps := reply.predictions;
      && (r.status == PiiDetected || r.status == PotentiallyMaliciousPii)
      && (r.status == PotentiallyMaliciousPii <==>
            exists i :: 0 <= i < |ps| && (ps[i].entityGroup == "IP_ADDRESS" || ps[i].entityGroup == "EMAIL_ADDRESS"))
      && (forall i :: 0 <= i < |ps| ==> ps[i].score <= r.confidence)
      && (exists i :: 0 <= i < |ps| && ps[i].score == r.confidence)
      && r.message == (if r.status == PiiDetected then DetectedPrefix else MaliciousPrefix) + Listing(ps, scoreText)
    // upstream failures
    ensures r.status == Error <==> IsValidDomain(domain) && (reply.HttpError? || reply.OtherFailure?)
    ensures r.status == Error ==> r.confidence == 0.0
    ensures IsValidDomain(domain) && reply.HttpError? ==>
      r.message == ServiceErrorMessage(reply.code, reply.codeText, reply.statusText, reply.body)
    ensures IsValidDomain(domain) && reply.OtherFailure? ==>
      r.message == UnexpectedPrefix + reply.kind + ": " + reply.detail
  {
    if !IsValidDomain(domain) then
      DomainCheckResponse(domain, InvalidFormat, InvalidFormatMessage, 0.0)
    else
      match reply
      case Entities(ps) => Classify(domain, ps, scoreText)
      case NullBody => Classify(domain, [], scoreText)
      case HttpError(code, codeText, statusText, body) =>
        DomainCheckResponse(domain, Error, ServiceErrorMessage(code, codeText, statusText, body), 0.0)
      case OtherFailure(kind, detail) =>
        DomainCheckResponse(domain, Error, UnexpectedPrefix + kind + ": " + detail, 0.0)
  }

  // ---------------------------------------------------------------------
  // Properties relating several calls
  // ---------------------------------------------------------------------

  /** A rejected string gets the same response whatever the upstream (never called) would say. */
  lemma InvalidIgnoresUpstream(domain: string, r1: InferenceReply, r2: InferenceReply, f1: real -> string, f2: real -> string)
    requires !IsValidDomain(domain)
    ensures CheckDomainSafety(domain, r1, f1) == CheckDomainSafety(domain, r2, f2)
    ensures UpstreamRequest(domain) == None
  {
  }

  /** The score rendering only ever affects the message. */
  lemma RenderingOnlyInMessage(domain: string, reply: InferenceReply, f1: real -> string, f2: real -> string)
    ensures CheckDomainSafety(domain, reply, f1).status == CheckDomainSafety(domain, reply, f2).status
    ensures CheckDomainSafety(domain, reply, f1).confidence == CheckDomainSafety(domain, reply, f2).confidence
  {
  }

  /** Listing is left-to-right joining: appending an entity appends `", "` and its entry. */
  lemma {:induction false} ListingAppend(ps: seq<EntityPrediction>, p: EntityPrediction, scoreText: real -> string)
    ensures Listing(ps + [p], scoreText) ==
      if ps == [] then EntityText(p, scoreText) else Listing(ps, scoreText) + ", " + EntityText(p, scoreText)
  {
    if |ps| == 1 {
      assert (ps + [p])[1..] == [p];
    } else if |ps| > 1 {
      assert (ps + [p])[1..] == ps[1..] + [p];
      ListingAppend(ps[1..], p, scoreText);
    }
  }

  // ---------------------------------------------------------------------
  // Examples
  // ---------------------------------------------------------------------

  /** An IP address among the entities escalates, and the confidence is the top score. */
  lemma ExampleEscalation(domain: string, scoreText: real -> string)
    requires IsValidDomain(domain)
    ensures var r := CheckDomainSafety(domain,
                       Entities([EntityPrediction("PERSON", 0.5, "example", 0, 7),
                                 EntityPrediction("IP_ADDRESS", 0.9, "1.2.3.4", 8, 15)]), scoreText);
            r.status == PotentiallyMaliciousPii && r.confidence == 0.9
  {
    var ps := [EntityPrediction("PERSON", 0.5, "example", 0, 7),
               EntityPrediction("IP_ADDRESS", 0.9, "1.2.3.4", 8, 15)];
    assert IsEscalating(ps[1].entityGroup);
    assert MaxScore(ps) == 0.9;
  }

  /** The escalation test is case-sensitive: a lower-case group name does not escalate. */
  lemma ExampleLowerCaseGroup(domain: string, scoreText: real -> string)
    requires IsValidDomain(domain)
    ensures CheckDomainSafety(domain,
              Entities([EntityPrediction("ip_address", 0.7, "1.2.3.4", 0, 7)]), scoreText).status == PiiDetected
  {
    var g := "ip_address";
    assert g[0] == 'i' && g != "IP_ADDRESS" && g != "EMAIL_ADDRESS";
    var ps := [EntityPrediction(g, 0.7, "1.2.3.4", 0, 7)];
    assert forall i :: 0 <= i < |ps| ==> !IsEscalating(ps[i].entityGroup);
    assert Classify(domain, ps, scoreText).status == PiiDetected;
  }

  /** An empty list from the upstream model means clean, with full confidence. */
  lemma ExampleNothingFound(scoreText: real -> string)
    ensures var r := CheckDomainSafety("example.com", Entities([]), scoreText);
            r.status == Clean && r.confidence == 1.0 && r.message == NoEntitiesMessage
  {
    ExampleCom();
  }

  /** A 401 from the upstream model is reported as an authentication failure. */
  lemma ExampleUnauthorized(scoreText: real -> string)
    ensures var r := CheckDomainSafety("example.com", HttpError(401, "401 UNAUTHORIZED", "Unauthorized", "{\"error\":\"Invalid credentials\"}"), scoreText);
            r.status == Error && r.message == AuthFailedMessage && r.confidence == 0.0
  {
    ExampleCom();
  }
}
