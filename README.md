# Email and domain analysis relay, modelled in Dafny

The backend has two request handlers. Each forwards its input to a hosted
classification model and reshapes the answer:

- **Domain check** (`DomainCheckService.checkDomainSafety`). The service first
  validates the domain or URL with a regular expression. Only a valid string is
  sent to an entity-recognition model, together with a fixed list of PII entity
  types. The entities that come back are turned into one of five statuses:
  `INVALID_FORMAT`, `CLEAN`, `PII_DETECTED`, `POTENTIALLY_MALICIOUS_PII` or
  `ERROR`. Each status comes with a message and a confidence. Upstream HTTP
  errors are translated into messages.
- **E-mail analysis** (`EmailAnalyzerController.analyzeEmail`). The controller
  sends subject and body to a zero-shot classifier with eight candidate labels.
  It pairs the returned labels with their scores and sorts the pairs by
  descending score. The head of that list is the primary prediction. The pairs
  scoring above 0.4 are kept under the application's own label names. There are
  fallbacks for "nothing above the threshold", for a malformed reply and for a
  failed call.

The Dafny modules follow that structure:

| module | file | models |
|---|---|---|
| `Wrappers` | `wrappers.dfy` | `Option` |
| `DomainFormat` | `domain_format.dfy` | `isValidDomain`, as a scanner proved equal to the regular expression's language |
| `DomainCheckService` | `domain_check.dfy` | `checkDomainSafety`, `PII_LABELS` and the error translation |
| `LabelMapping` | `label_mapping.dfy` | `mapZeroShotLabelToCustomLabel` and the candidate labels |
| `Ranking` | `ranking.dfy` | the zip, the stable descending sort and the threshold filter, as specification functions with their properties |
| `EmailAnalyzerController` | `email_analyzer.dfy` | `analyzeEmail`, as a method with the zip loop and the filter loop |

Both handlers depend on a blocking call to an upstream service. Each such call
is an input datatype that lists what the call can produce:

- `InferenceReply`: an entity list, a null body, an HTTP error or another failure.
- `ZeroShotReply`: a failure, no body, or a body with or without `labels` and `scores`.

Two further points of the model:

- The regular expression is written as a grammar (`InDomainLanguage`). The
  deterministic scanner `IsValidDomain` is proved to accept exactly that
  language.
- `List.sort` is modelled as a stable insertion sort. `StableSortUnique` proves
  that only one list is both sorted by descending score and keeps the original
  order of equal scores. Any stable sort, the library's included, therefore
  gives the same list.

Behaviour of the code worth knowing:

- A failed classifier call in the e-mail flow is answered with HTTP 500 and
  `API_ERROR`. The service does not single out 401, 429 or other codes there.
  Only the domain flow translates those codes.
- The domain flow's "nothing found" message is "No specific PII entities found
  in the domain/URL.".
- Re-mapping an already mapped label does not always give `OTHER`:
  `NEWSLETTER` matches "newsletter" ignoring case and maps to itself
  (`RemapTwice`).
- When nothing passes the threshold, the detailed list holds the sentinel
  entry, which scores 0.0. Every detailed score exceeds 0.4 only when some
  entry passed (`AnalyzeEmail`, `DetailedRankedAboveThreshold`).
- The primary label `UNKNOWN` is never returned (`AnalyzeEmail`).

## Model

| member | source | states |
|---|---|---|
| DomainFormat.ValidDomainIsLanguage | backend/src/main/java/com/example/restfulapi01/service/DomainCheckService.java:169-170 | a string is accepted exactly when it splits into an optional `http://`/`https://` scheme, one or more `[a-zA-Z0-9-]+.` labels (an optional `www.` being one of them), a 2 to 63 letter top-level label, and an optional suffix that starts with `/` and uses only the allowed characters |
| DomainFormat.ValidDomainSound | backend/src/main/java/com/example/restfulapi01/service/DomainCheckService.java:169-170 | every string the scanner accepts matches the pattern |
| DomainFormat.ValidDomainComplete | backend/src/main/java/com/example/restfulapi01/service/DomainCheckService.java:169-170 | every string that matches the pattern is accepted |
| DomainFormat.ScanHostCorrect | backend/src/main/java/com/example/restfulapi01/service/DomainCheckService.java:169 | the host scanner accepts exactly the dotted labels followed by a top-level label |
| DomainFormat.SchemeLength | backend/src/main/java/com/example/restfulapi01/service/DomainCheckService.java:169 | the length of the scheme prefix it strips is within the string, and that prefix is a valid scheme (possibly empty) |
| DomainFormat.IndexOf | backend/src/main/java/com/example/restfulapi01/service/DomainCheckService.java:169 | the position of the first occurrence of a character, or the length when absent |
| DomainFormat.SchemeIsForced | backend/src/main/java/com/example/restfulapi01/service/DomainCheckService.java:169 | in any match of the pattern the scheme is the one the scanner strips, so the optional group is never ambiguous |
| DomainFormat.SuffixIsForced | backend/src/main/java/com/example/restfulapi01/service/DomainCheckService.java:169 | in any match the suffix starts at the first `/` after the scheme |
| DomainFormat.WwwIsALabel | backend/src/main/java/com/example/restfulapi01/service/DomainCheckService.java:169 | the optional `www.` group adds nothing the label group does not already allow |
| DomainFormat.ValidFromPieces | backend/src/main/java/com/example/restfulapi01/service/DomainCheckService.java:169-170 | a scheme, dotted labels, a top-level label and a suffix, concatenated, are accepted |
| DomainFormat.AcceptedCharacters | backend/src/main/java/com/example/restfulapi01/service/DomainCheckService.java:169 | an accepted string uses only characters the pattern mentions |
| DomainFormat.RejectsSpace | backend/src/main/java/com/example/restfulapi01/service/DomainCheckService.java:169-170 | a string containing a space is rejected |
| DomainFormat.HostCharsBeforeSlash | backend/src/main/java/com/example/restfulapi01/service/DomainCheckService.java:169 | an accepted string without a scheme (`SchemeLength` is 0) has only letters, digits, `-` and `.` before its first `/` |
| DomainFormat.EndsInLetters | backend/src/main/java/com/example/restfulapi01/service/DomainCheckService.java:169 | an accepted string without `/` ends in at least two letters |
| DomainFormat.NonHostCharBeforeSlash | backend/src/main/java/com/example/restfulapi01/service/DomainCheckService.java:169-170 | a string not starting with `h` that has a character such as `:` or `?` before any `/` is rejected |
| DomainFormat.FinalLabelTooShort | backend/src/main/java/com/example/restfulapi01/service/DomainCheckService.java:169-170 | a string without `/` whose second-to-last character is not a letter is rejected (a one-letter top-level label) |
| DomainFormat.ExampleCom | backend/src/main/java/com/example/restfulapi01/service/DomainCheckService.java:169-170 | `example.com` is accepted |
| DomainFormat.ExampleUrl | backend/src/main/java/com/example/restfulapi01/service/DomainCheckService.java:169-170 | `http://sub.example.co.uk/path?q=1` is accepted |
| DomainFormat.ExampleShortTld | backend/src/main/java/com/example/restfulapi01/service/DomainCheckService.java:169-170 | `example.c` is rejected |
| DomainFormat.ExampleFtp | backend/src/main/java/com/example/restfulapi01/service/DomainCheckService.java:169-170 | `ftp://example.com` is rejected |
| DomainFormat.ExampleQuery | backend/src/main/java/com/example/restfulapi01/service/DomainCheckService.java:169-170 | `example.com?q=1` is rejected: a query needs a `/` before it |
| DomainCheckService.StatusNamesDistinct | backend/src/main/java/com/example/restfulapi01/service/DomainCheckService.java:64-143 | the five statuses go out as five distinct strings: `INVALID_FORMAT`, `CLEAN`, `PII_DETECTED`, `POTENTIALLY_MALICIOUS_PII`, `ERROR` |
| DomainCheckService.UpstreamRequest | backend/src/main/java/com/example/restfulapi01/service/DomainCheckService.java:63-77 | a request is built exactly when the string is valid, and it carries the domain itself and the ten PII entity types |
| DomainCheckService.MaxScore | backend/src/main/java/com/example/restfulapi01/service/DomainCheckService.java:122-125 | the confidence is at least every entity's score and equals one of them |
| DomainCheckService.ServiceErrorMessage | backend/src/main/java/com/example/restfulapi01/service/DomainCheckService.java:143-154 | 401 gives the authentication message and 429 the rate-limit message; other 4xx codes give the bad-request prefix and the body, 5xx codes the server-error prefix and the body, and any other code the status code and status text |
| DomainCheckService.CheckDomainSafety | backend/src/main/java/com/example/restfulapi01/service/DomainCheckService.java:58-166 | the domain is always echoed. An invalid string gives INVALID_FORMAT with 0.0. CLEAN with 1.0 comes exactly when the string is valid and the model returns nothing or an empty list. With entities, the confidence is their maximum score, the status escalates exactly when some group is `IP_ADDRESS` or `EMAIL_ADDRESS`, and the message is the prefix plus the joined entries. ERROR with 0.0 comes exactly when the call fails, with the translated or unexpected-error message |
| DomainCheckService.InvalidIgnoresUpstream | backend/src/main/java/com/example/restfulapi01/service/DomainCheckService.java:63-67 | a rejected string gets the same response whatever the upstream would say, and no request is built |
| DomainCheckService.RenderingOnlyInMessage | backend/src/main/java/com/example/restfulapi01/service/DomainCheckService.java:116-118 | score formatting affects only the message, never the status or the confidence |
| DomainCheckService.ListingAppend | backend/src/main/java/com/example/restfulapi01/service/DomainCheckService.java:116-118 | the listing joins the entries left to right with `", "` |
| DomainCheckService.ExampleEscalation | backend/src/main/java/com/example/restfulapi01/service/DomainCheckService.java:122-135 | a PERSON at 0.5 and an IP_ADDRESS at 0.9 give POTENTIALLY_MALICIOUS_PII with confidence 0.9 |
| DomainCheckService.ExampleLowerCaseGroup | backend/src/main/java/com/example/restfulapi01/service/DomainCheckService.java:130-131 | the escalation test is case-sensitive: `ip_address` stays PII_DETECTED |
| DomainCheckService.ExampleNothingFound | backend/src/main/java/com/example/restfulapi01/service/DomainCheckService.java:106-111 | an empty entity list for `example.com` gives CLEAN, 1.0 and the no-entities message |
| DomainCheckService.ExampleUnauthorized | backend/src/main/java/com/example/restfulapi01/service/DomainCheckService.java:139-147 | a `WebClientResponseException` with status 401 (and a non-empty body) for `example.com` gives ERROR, the authentication message and 0.0 |
| LabelMapping.MapZeroShotLabel | backend/src/main/java/com/example/restfulapi01/controller/EmailAnalyzerController.java:153-172 | the result is `OTHER` exactly when the input matches no vocabulary label ignoring ASCII case; otherwise it is the application label of the matching entry |
| LabelMapping.VocabularyDistinct | backend/src/main/java/com/example/restfulapi01/controller/EmailAnalyzerController.java:154-169 | no string matches two vocabulary labels, so the order of the if-chain does not matter |
| LabelMapping.MapIntoLabelSet | backend/src/main/java/com/example/restfulapi01/controller/EmailAnalyzerController.java:153-172 | the mapping is total, with results among the eight application labels and `OTHER` |
| LabelMapping.OutputsUnrecognised | backend/src/main/java/com/example/restfulapi01/controller/EmailAnalyzerController.java:153-172 | every application label except `NEWSLETTER`, and `OTHER` itself, matches no vocabulary label |
| LabelMapping.RemapTwice | backend/src/main/java/com/example/restfulapi01/controller/EmailAnalyzerController.java:153-172 | mapping a mapped label gives `NEWSLETTER` for `NEWSLETTER` and `OTHER` for everything else |
| LabelMapping.CandidateLabelsCovered | backend/src/main/java/com/example/restfulapi01/controller/EmailAnalyzerController.java:47-56 | every candidate label sent to the classifier is recognised, and distinct candidates map to distinct labels |
| Ranking.SortByScore | backend/src/main/java/com/example/restfulapi01/controller/EmailAnalyzerController.java:100 | the result is sorted by descending score, is a permutation of the input, and keeps the input order among equal scores |
| Ranking.InsertSorted | backend/src/main/java/com/example/restfulapi01/controller/EmailAnalyzerController.java:100 | inserting into a sorted list keeps it sorted |
| Ranking.InsertPermutes | backend/src/main/java/com/example/restfulapi01/controller/EmailAnalyzerController.java:100 | inserting adds exactly the inserted entry |
| Ranking.InsertStable | backend/src/main/java/com/example/restfulapi01/controller/EmailAnalyzerController.java:100 | the inserted entry goes before every entry of the same score, which keeps it ahead of the later input elements it ties with |
| Ranking.StableSortUnique | backend/src/main/java/com/example/restfulapi01/controller/EmailAnalyzerController.java:100 | two lists sorted by descending score, with the same entries of each score in the same order, are equal |
| Ranking.SortIsTheStableSort | backend/src/main/java/com/example/restfulapi01/controller/EmailAnalyzerController.java:100 | any stable descending sort of the input equals `SortByScore` |
| Ranking.WithScoreEmpty | backend/src/main/java/com/example/restfulapi01/controller/EmailAnalyzerController.java:100 | no entry of a score is selected exactly when no entry has that score |
| Ranking.WithScoreAppend | backend/src/main/java/com/example/restfulapi01/controller/EmailAnalyzerController.java:100 | selecting by score distributes over concatenation |
| Ranking.KeepIsRemappedPrefix | backend/src/main/java/com/example/restfulapi01/controller/EmailAnalyzerController.java:109-119 | on a sorted list the filter keeps the remapped longest prefix above 0.4, and everything after scores at most 0.4 |
| Ranking.AboveWithScore | backend/src/main/java/com/example/restfulapi01/controller/EmailAnalyzerController.java:113 | filtering keeps all entries of a score above the threshold, in order, and none of the others |
| Ranking.AboveEmpty | backend/src/main/java/com/example/restfulapi01/controller/EmailAnalyzerController.java:113 | the filter keeps nothing exactly when no score is above 0.4 |
| Ranking.FilterCommutesWithSort | backend/src/main/java/com/example/restfulapi01/controller/EmailAnalyzerController.java:100-119 | sorting then filtering equals filtering then sorting: the detailed list is the raw pairs above 0.4, stably sorted, remapped |
| Ranking.NothingAboveThreshold | backend/src/main/java/com/example/restfulapi01/controller/EmailAnalyzerController.java:109-123 | the detailed list is empty exactly when no raw score exceeds 0.4 |
| Ranking.DetailedRankedAboveThreshold | backend/src/main/java/com/example/restfulapi01/controller/EmailAnalyzerController.java:100-119 | the detailed list is sorted by descending score and every score in it exceeds 0.4 |
| Ranking.PrimaryIsFirstMaximum | backend/src/main/java/com/example/restfulapi01/controller/EmailAnalyzerController.java:100-106 | the primary entry is the first raw pair with the top score |
| Ranking.FirstMaximumIndex | backend/src/main/java/com/example/restfulapi01/controller/EmailAnalyzerController.java:100-106 | returns that pair's index: scores before it are smaller, and scores from it on are at most its own |
| Ranking.HeadIsMaximum | backend/src/main/java/com/example/restfulapi01/controller/EmailAnalyzerController.java:100-106 | no raw score exceeds the head's |
| Ranking.KeptHeadIsPrimary | backend/src/main/java/com/example/restfulapi01/controller/EmailAnalyzerController.java:103-119 | when anything is kept, the first kept entry is the remapped primary entry |
| EmailAnalyzerController.ClassifierRequest | backend/src/main/java/com/example/restfulapi01/controller/EmailAnalyzerController.java:44-61 | the input is the subject, one space and the body; the labels sent are exactly the eight candidate labels, in their order, each recognised by the mapping, in multi-label mode |
| EmailAnalyzerController.MappedLabelsAreNotSentinels | backend/src/main/java/com/example/restfulapi01/controller/EmailAnalyzerController.java:81-138 | no mapped label equals `UNKNOWN`, `UNCLEAR`, `API_ERROR` or `AI_PARSE_ERROR` |
| EmailAnalyzerController.PairUp | backend/src/main/java/com/example/restfulapi01/controller/EmailAnalyzerController.java:90-96 | the zip loop pairs each label with the score at its index, and fails exactly when there are more labels than scores |
| EmailAnalyzerController.KeepAbove | backend/src/main/java/com/example/restfulapi01/controller/EmailAnalyzerController.java:109-119 | the filter loop returns the remapped entries above 0.4, in the order of the sorted list |
| EmailAnalyzerController.AnalyzeEmail | backend/src/main/java/com/example/restfulapi01/controller/EmailAnalyzerController.java:43-150 | every response echoes the request and never says `UNKNOWN`. A failed call gives 500, API_ERROR and no list. A reply without both keys gives 200, AI_PARSE_ERROR and the parse sentinel. More labels than scores is an index error. Otherwise the detailed list is the raw pairs above 0.4, stably sorted and remapped, and never longer than the labels list; it is empty exactly when no score exceeds 0.4, and then UNCLEAR with 0.0 and the sentinel are returned. A non-empty list is sorted with all scores above 0.4, and its head is the first maximal pair under its mapped label |
| EmailAnalyzerController.NoScoreAboveThreshold | backend/src/main/java/com/example/restfulapi01/controller/EmailAnalyzerController.java:109-131 | on the classifier's own lists: nothing is kept exactly when no score exceeds 0.4 |
| EmailAnalyzerController.TopPairOfClassifier | backend/src/main/java/com/example/restfulapi01/controller/EmailAnalyzerController.java:100-106 | on the classifier's own lists: the head of the ranking is the first label with the top score |

## Left out

- The HTTP calls (WebClient, the bearer token, the base URL and model id, `@PostConstruct` set-up) are not modelled. Their outcomes are the inputs `InferenceReply` and `ZeroShotReply`.
- Logging to standard output and standard error: no observable effect on the responses.
- `%.2f` formatting of a score is the parameter `scoreText`. `HttpStatusCode.toString` is the `codeText` field of `HttpError`. Exception class names and messages are plain strings in the replies.
- Scores are exact reals. IEEE doubles are not modelled: NaN, `-0.0` against `0.0` in the comparator and in `max()`, and rounding of the 0.4 comparison.
- `equalsIgnoreCase` is modelled with ASCII case folding only. Java also folds non-ASCII letters, for example `'ſ'` against `'s'`, so a few non-ASCII inputs could map differently.
- The unchecked casts from the untyped reply map are not modelled: a `labels` value that is not a list of strings, or a score that is not a `Double`, would throw `ClassCastException`. So are `null` elements in those lists, and a `labels` or `scores` key present with a JSON `null` value, which passes `containsKey`. A `null` `labels` always throws an uncaught `NullPointerException` at `labels.size()`, which the framework answers with 500. A `null` `scores` throws only when `labels` is non-empty; with an empty `labels` the loop never reads it, and the answer is the UNCLEAR response with the "No clear prediction above threshold" entry. The replies are typed.
- A `null` domain string would throw `NullPointerException`. A `null` entity group is rendered as `null` in the listing. It throws in `anyMatch` unless an earlier entity already escalated: `anyMatch` stops at the first match, and then the answer is POTENTIALLY_MALICIOUS_PII with `null: '…'` in the message. When it throws, the general handler turns the exception into an ERROR response with the unexpected-error message. A `null` element of the entity list throws while the listing is built, and it ends in the same ERROR. The model's strings and entities are never null, so it produces neither response from an entity list.
- An upstream error status whose response body is empty does not raise `WebClientResponseException`: the `onStatus` handlers build the exception only from a non-empty body, so the empty body is decoded as a normal reply, to `null`. Such a reply is `NullBody` in the model, and the check reports it CLEAN. `HttpError` stands only for a raised `WebClientResponseException`.
- `List.sort` is TimSort in the library and an insertion sort here. `SortIsTheStableSort` proves that every stable sort gives the same result.
- The controller and service wiring (`DomainCheckController`), `EnvConfig`, `User`, the payload records' accessors and the frontend are not part of this model.

