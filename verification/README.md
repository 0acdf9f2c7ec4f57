# Verified model of the portfolio manager's checks and connectors

A Dafny 4.11 model of the parts of the portfolio manager that decide something: the architecture
checker, the single-use Kite login, one collection run against a broker transport, and the envelope
format for stored secrets. `dafny verify dfyconfig.toml` checks all of it.

## What is modelled

**Architecture checker** (`ModuleGraph`, `CycleDetection`, `ImportMatching`, `RuleLoading`, `ImportChecking`).
`detect_cycles` is a class with the two shared sets as fields and an explicit ancestor chain; the order in
which a set yields its members is left open, so every result holds for all orders. The search accepts
exactly the acyclic graphs, and rejects at the first module of the file that leads to a cycle. `load_rules`
returns the rules of exactly the acceptable files, and otherwise the first fault. The import check reports
exactly the faults of a tree, in order. Together: in a tree that passes, the real imports between modules form
no cycle and never leave the declared dependencies. The file tree, with one set of imported dotted names for
each readable file, is an input.

**Single-use login** (`KiteAuthorization`, `FormEncoding`, `AuthorizationProtocol`, `AuthorizationService`,
`KiteSessions`). Any number of `start` and `complete` calls interleave as a step system; `issue` and `consume`
are single steps and the clock never goes back. The digest is a parameter, of which only its shape is assumed.
Every call of the service class is proved to be one schedule of that system, over a table that may hold records
already and that other service objects may share. Instants are UTC microseconds.

**Collection** (`Connectors`, `Collection`, `HttpTransport`, `ZerodhaConnector`, `HttpCollection`). The nested loops
of `collect` run against a transport that answers the n-th fetch of the run from an arbitrary script: a payload, a
connector error, or any other exception. The loops are proved equal to `Collection.CollectAll`, and that function to
be exact about fetches, artifacts, statuses and issues. Two instances follow: a stateless transport, where a run
decomposes into single capabilities, and the HTTP transport, whose own record of GETs `HttpCollection.CollectOverHttp`
follows through a run in which the session may expire.

**Envelope** (`Envelope`). AES-GCM and AES-KWP are functions with their inversion and length laws; the framing of
version and associated data, version validation and key rotation are proved on top.

## Where the code differs from what is promised

- ADR 0006 makes partial success a result rather than an exception, and `collect` relies on `fetch` raising only
  connector errors and on artifacts that can be made from every payload. Two things break this, and `collect` then
  returns no result at all, whatever was already fetched; `Collection.ResultIsValid` proves that nothing else does.
  - A payload may carry a source time without a zone. Its own constructor does not look at it, and the artifact's
    refuses it (`Collection.NaiveSourceLosesRun`).
  - The HTTP transport raises something other than a connector error in exactly three cases
    (`HttpTransport.FetchCrashesExactly`): a `content-type` that is present but blank or padded, which the payload
    constructor refuses; an HTTP error outside the timeout and network classes; and a rate limit whose `retry-after`
    is a decimal number of more than 4300 digits, which Python 3.13 does not convert
    (`HttpTransport.OverlongDelayCrashes`), although untrusted delays are meant to be ignored
    (tests/connectors/test_zerodha_http.py:290-299).
- ADR 0010 says versioned keys permit rotation. They do for a provider that keeps resolving the old version to the old
  key. The file provider resolves its own label only, and to whatever the file holds at the moment: by
  `Envelope.FileProviderKeepsOneVersion` an old secret opens exactly while the label and the content of the file both
  stay as they were, unless key wrapping is forged. `Envelope.ReplacedFileLosesSecret` replaces the content alone.

## Model

| member | source | states |
|---|---|---|
| CycleDetection.CycleDetector.Visit | scripts/check_architecture.py:64-74 | at every call the visited set is closed and disjoint from the ancestors, which are exactly the chain; a normal return finishes the module after all its dependencies, a failure carries a walk that closes a simple cycle; either way there is at most one call for each edge of the expanded modules beside the first |
| CycleDetection.CycleDetector.VisitDependencies | scripts/check_architecture.py:71-72 | the dependency loop in any order: on success all dependencies are finished at one call each beyond the newly finished modules' edges |
| CycleDetection.CycleDetector.DetectCycles | scripts/check_architecture.py:60-77 | returns normally if and only if no module reaches itself; then the finishing order is topological and lists each module once, and exactly modules plus edges visits were made; otherwise at most as many, and the chain starts at the first module in storage order that leads to a cycle |
| CycleDetection.Enter | scripts/check_architecture.py:70 | putting a module on the chain keeps the search invariant |
| CycleDetection.Leave | scripts/check_architecture.py:73-74 | taking it off after its dependencies keeps the invariant and extends the topological order |
| CycleDetection.Meet | scripts/check_architecture.py:65-67 | meeting an ancestor gives a chain that is a real walk into a cycle |
| ModuleGraph.TopologicalIsAcyclic | scripts/check_architecture.py:60-77 | a graph whose modules all stand after their dependencies has no cycle of any length |
| ModuleGraph.FinishedAvoidsCycles | scripts/check_architecture.py:68-74 | no module that was finished leads to a cycle, even when the graph has one elsewhere |
| ModuleGraph.WitnessIsCycle | scripts/check_architecture.py:65-67 | the reported chain, from the earlier occurrence of its last name on, is a simple cycle of the graph |
| RuleLoading.LoadRules | scripts/check_architecture.py:20-57 | said of the tables of the file: it is accepted exactly when every table is complete and safe, no path or prefix repeats, every listed name is another table, and the graph of the listed names is acyclic; the rules returned are the tables, in order and unchanged; otherwise the first fault is named, for a cycle a chain from the first module that leads to one |
| RuleLoading.LoadDeclarations | scripts/check_architecture.py:32-47 | the first loop accepts exactly the sound declarations and returns them in order, with all they list |
| RuleLoading.CheckReferences | scripts/check_architecture.py:49-54 | the second loop accepts exactly when every name listed in the file is that of another table |
| RuleLoading.CheckCycles | scripts/check_architecture.py:56 | the search accepts exactly when the graph declared in the file is acyclic, and its chain starts at the first table that leads to a cycle |
| RuleLoading.GraphIsDeclared | scripts/check_architecture.py:38-47 | the graph that is searched has the tables as its modules and the listed names as its edges, no more and no fewer |
| RuleLoading.AcceptedRules | scripts/check_architecture.py:20-57 | what an accepted file guarantees to its users: the rules are its tables, one per name and per prefix, and their graph is the declared one, closed and acyclic |
| ImportMatching.DottedPrefix | scripts/check_architecture.py:95 | the character test holds exactly when the components of the prefix begin the components of the name |
| ImportMatching.MatchRuleIsExact | scripts/check_architecture.py:91-99 | the lookup returns a rule if and only if it is the innermost declared package around the name |
| ImportMatching.NoMatchMeansNoOwner | scripts/check_architecture.py:97-98 | it returns nothing if and only if no declared package encloses the name |
| ImportMatching.MatchModuleIsExact | scripts/check_architecture.py:91-99 | the name returned is that of the one rule that owns the import, and none exactly when no declared package encloses it |
| ImportMatching.MatchIgnoresOrder | scripts/check_architecture.py:91-99 | with distinct prefixes the order of the rules does not matter |
| ImportChecking.CheckFile | scripts/check_architecture.py:109-122 | exactly the faults of one file, in name order: an entry for each name owned by another module that the rule does not permit |
| ImportChecking.CheckModule | scripts/check_architecture.py:105-122 | exactly the faults of the files strictly below one module's path, in path order |
| ImportChecking.CheckImports | scripts/check_architecture.py:102-123 | exactly the faults of the tree, in rules order, then path order, then name order; a forbidden entry is there if and only if a file of the module imports a name that another rule owns and that is not permitted |
| ImportChecking.ImportGraphEdges | scripts/check_architecture.py:102-123 | the real import graph: an edge for each pair of modules of which a file of the one imports a name owned by the other |
| ImportChecking.ReportIsUnique | scripts/check_architecture.py:102-123 | being exact and in order leaves only one possible report |
| ImportChecking.CleanMeansPermitted | scripts/check_architecture.py:102-123 | an empty report means exactly that every file was read and every real crossing import is a permitted edge |
| ImportChecking.PassingTreeIsLayered | scripts/check_architecture.py:49-123 | in a passing tree the real import graph is acyclic, and any chain of imports stays within the transitive closure of the declared dependencies |
| ImportChecking.CheckArchitecture | scripts/check_architecture.py:126-146 | exit code 2 exactly for an unacceptable file or a source tree that cannot be walked, 1 exactly for a violation, and 0 only for a layered tree |
| Ordering.StringLessExactly | scripts/check_architecture.py:108-114 | strings are ordered by the code points where they first differ, a beginning before the whole |
| Ordering.SortSet | scripts/check_architecture.py:108-114 | sorting a set yields its one strictly increasing listing |
| Ordering.SortingUnique | scripts/check_architecture.py:108-114 | there is only one such listing, so the set's own order is immaterial |
| KiteAuthorization.CredentialTest | packages/connectors/src/portfolio_manager/connectors/zerodha_auth.py:29-37 | a credential is accepted exactly when it has 1 to 512 visible ASCII characters |
| KiteAuthorization.NonceTest | packages/connectors/src/portfolio_manager/connectors/zerodha_auth.py:158-164 | a nonce is accepted exactly when it has 32 to 128 characters of the URL-safe alphabet |
| KiteAuthorization.LoginUrlText | packages/connectors/src/portfolio_manager/connectors/zerodha_auth.py:126-128 | the URL itself: base, three fields and the nested field, with every name and separator written out |
| KiteAuthorization.LoginUrlRoundTrip | packages/connectors/src/portfolio_manager/connectors/zerodha_auth.py:126-128 | form-decoding the login URL gives exactly the version, the key and one nested form, and decoding that gives exactly the nonce |
| KiteAuthorization.LoginUrlInjective | packages/connectors/src/portfolio_manager/connectors/zerodha_auth.py:114-128 | different accepted keys or nonces give different URLs |
| FormEncoding.UnquoteQuote | packages/connectors/src/portfolio_manager/connectors/zerodha_auth.py:126-127 | one layer of percent-encoding is undone exactly and leaves no separator behind |
| FormEncoding.FormRoundTrip | packages/connectors/src/portfolio_manager/connectors/zerodha_auth.py:126-127 | every list of ASCII fields survives encoding and decoding, in order |
| FormEncoding.QuoteAlphabet | packages/connectors/src/portfolio_manager/connectors/zerodha_auth.py:126-127 | quoted text holds only the unreserved set of section 2.3 of RFC 3986, plus signs and percent signs |
| FormEncoding.QuotesExactly | packages/connectors/src/portfolio_manager/connectors/zerodha_auth.py:126-127 | each character is left alone, becomes a plus sign, or its code in capital hexadecimal |
| KiteAuthorization.NonceStore.Issue | packages/persistence/src/portfolio_manager/persistence/nonce_store.py:47-60 | stores a new digest and refuses a present one, leaving the table as it was |
| KiteAuthorization.NonceStore.Consume | packages/persistence/src/portfolio_manager/persistence/nonce_store.py:62-78 | deletes the row of the digest and returns it, in one step |
| AuthorizationProtocol.StepKeeps | packages/connectors/src/portfolio_manager/connectors/zerodha_auth.py:108-148 | every step of any call keeps the invariant that ties calls, rows, issues and exchanges together |
| AuthorizationProtocol.EachIssueInOnePlace | packages/connectors/src/portfolio_manager/connectors/zerodha_auth.py:118-148 | after every schedule each issued record is stored or held by one completion, in exactly one place, and no other record exists |
| AuthorizationProtocol.ExchangesAreSingleUse | packages/connectors/src/portfolio_manager/connectors/zerodha_auth.py:118-148 | after every schedule exchanges map injectively to issues, each allowed by a reading from the issuing start up to, but not including, five minutes later, with results for that start's tenant and connection |
| AuthorizationProtocol.HandedOverExactly | packages/connectors/src/portfolio_manager/connectors/zerodha_auth.py:138-148 | after every schedule an issued record has a token exchange if and only if the completion that holds it went on to exchange |
| AuthorizationProtocol.RunIsTraced | packages/connectors/src/portfolio_manager/connectors/zerodha_auth.py:108-148 | every issue goes back to a begun start and every exchange to a begun completion of the schedule |
| AuthorizationProtocol.OnlyTheIssuedNonceExchanges | packages/connectors/src/portfolio_manager/connectors/zerodha_auth.py:136-143 | without a digest collision among the strings of the run, an exchange presents the nonce of a start in it |
| AuthorizationProtocol.MalformedCompletionTouchesNothing | packages/connectors/src/portfolio_manager/connectors/zerodha_auth.py:136-137 | a malformed state or token leaves the store as it was and ends the call |
| AuthorizationProtocol.MalformedStartTouchesNothing | packages/connectors/src/portfolio_manager/connectors/zerodha_auth.py:114-116 | a malformed key or nonce stores nothing and ends the call |
| AuthorizationProtocol.ConsumeRemovesTheDigest | packages/connectors/src/portfolio_manager/connectors/zerodha_auth.py:138-140 | right after its consume step a completion's digest is absent, all other rows are kept, and a missing digest ends the call |
| AuthorizationProtocol.PromptLoginCompletes | packages/connectors/src/portfolio_manager/connectors/zerodha_auth.py:108-148 | an undisturbed login is exchanged for its own owner if and only if it returns within five minutes, and leaves the store as before |
| AuthorizationProtocol.RecordStays | packages/persistence/src/portfolio_manager/persistence/nonce_store.py:47-78 | in every schedule a stored record stays as it is unless a completion presents a state of the same digest |
| AuthorizationProtocol.StaysOnTrack | packages/connectors/src/portfolio_manager/connectors/zerodha_auth.py:136-148 | in every schedule of other calls that do not present its digest, a completion keeps its record within reach or in hand, and only time can refuse it |
| AuthorizationProtocol.OnTrackCompletes | packages/connectors/src/portfolio_manager/connectors/zerodha_auth.py:138-148 | such a completion, in time or already checked, only has to be allowed to go on to be exchanged for its owner |
| AuthorizationProtocol.PromptLoginCompletesAmongOthers | packages/connectors/src/portfolio_manager/connectors/zerodha_auth.py:108-148 | among any other calls that do not present its digest, the completion of an issued nonce can at every moment before the deadline be carried through for the owner of the issue, and is refused as expired only from the deadline on |
| AuthorizationProtocol.StartScheduleRuns | packages/connectors/src/portfolio_manager/connectors/zerodha_auth.py:114-125 | what an undisturbed start does to the store in each of its outcomes |
| AuthorizationProtocol.CompleteScheduleRuns | packages/connectors/src/portfolio_manager/connectors/zerodha_auth.py:136-148 | what an undisturbed completion does to store and exchanges in each of its outcomes |
| AuthorizationService.KiteAuthorizationService.Start | packages/connectors/src/portfolio_manager/connectors/zerodha_auth.py:108-128 | the method is one schedule of the protocol; it succeeds exactly for valid input and a fresh digest, and stores a record that expires five minutes after its reading |
| AuthorizationService.KiteAuthorizationService.Complete | packages/connectors/src/portfolio_manager/connectors/zerodha_auth.py:130-148 | the method is one schedule of the protocol; each outcome and its effect on the store, with an exchange begun only for a stored, unexpired state |
| KiteSessions.SessionExpiryExact | packages/connectors/src/portfolio_manager/connectors/zerodha_auth.py:253-256 | the expiry is the one instant at 00:30 UTC more than 6 and at most 30 hours after the observation |
| KiteSessions.SessionExpiryMonotone | packages/connectors/src/portfolio_manager/connectors/zerodha_auth.py:253-256 | a later observation never gives an earlier expiry |
| KiteSessions.AuthenticationDecided | packages/connectors/src/portfolio_manager/connectors/zerodha_http.py:85-94 | what any session is at any reading, with the reason for which it is not ready |
| KiteSessions.SessionLifetime | packages/connectors/src/portfolio_manager/connectors/zerodha_http.py:85-94 | a session from an exchange is ready exactly before its expiry, so for six hours at least, and expired from thirty hours on |
| Connectors.CapabilityOrder | packages/connectors/src/portfolio_manager/connectors/zerodha.py:89 | sorting by value orders the capabilities strictly and totally |
| Connectors.CapabilitiesInOrder | packages/connectors/src/portfolio_manager/connectors/zerodha.py:89 | the order of all eight capabilities |
| Connectors.StableKeyTest | packages/application/src/portfolio_manager/application/connectors.py:20-26 | a key is 1 to 64 lowercase letters, digits, dots, underscores and hyphens, a letter first |
| Connectors.ResultRefusals | packages/application/src/portfolio_manager/application/connectors.py:171-197 | what the constructors of outcomes and results refuse |
| Connectors.ArtifactRefusals | packages/application/src/portfolio_manager/application/connectors.py:119-132 | what the constructor of artifacts refuses |
| Collection.EndpointsPartition | packages/connectors/src/portfolio_manager/connectors/zerodha.py:52-58 | every endpoint is fetched for exactly one capability, and orders before trades |
| Collection.TraceIsPlanCut | packages/connectors/src/portfolio_manager/connectors/zerodha.py:89-133 | the fetches are the planned endpoints cut just after the first authentication failure or abort, each answered by the script |
| Collection.LatchIsAuthenticationFailure | packages/connectors/src/portfolio_manager/connectors/zerodha.py:131-133 | the latch holds the reason of the one authentication failure, which is the last fetch |
| Collection.CutIsUnique | packages/connectors/src/portfolio_manager/connectors/zerodha.py:113-133 | plan and script leave only one such list of fetches |
| Collection.OutcomesAreExact | packages/connectors/src/portfolio_manager/connectors/zerodha.py:89-141 | one outcome for each capability in order: unsupported without a mapping, succeeded exactly when all its endpoints were fetched, partial exactly when some fetch succeeded and some failed, the latched issue when nothing was fetched for it |
| Collection.IssuesAreFailures | packages/connectors/src/portfolio_manager/connectors/zerodha.py:127-130 | the issues are the distinct reasons of the failed fetches, without duplicates |
| Collection.IssuesInOrder | packages/connectors/src/portfolio_manager/connectors/zerodha.py:127-130 | the issues stand in order of first occurrence |
| Collection.ArtifactsAreTheSuccesses | packages/connectors/src/portfolio_manager/connectors/zerodha.py:116-126 | there is one artifact for each kept fetch, in order, and it carries that fetch's body, media type and source time, the retrieval time, the connector key and the schema of that endpoint |
| Collection.ResultIsValid | packages/application/src/portfolio_manager/application/connectors.py:176-197 | in every run, also an aborted one, no constructor of outcomes and issues refuses what it gets, and the one of artifacts refuses a payload exactly for a naive source time; there is no result exactly after such a payload or a foreign exception, and any result passes its constructor |
| Collection.ArtifactRefusedExactly | packages/application/src/portfolio_manager/application/connectors.py:119-132 | of the payloads that can be constructed, exactly those with a naive source time make no artifact |
| Collection.AbortsExactly | packages/connectors/src/portfolio_manager/connectors/zerodha.py:113-133 | plan and script decide it: a run ends without a result exactly when the first answer that stops the planned endpoints is a foreign exception or brings a naive source time |
| Collection.AbortsOnTrace | packages/connectors/src/portfolio_manager/connectors/zerodha.py:113-133 | read off the fetches made: an aborted run is one with such a fetch |
| Collection.NaiveSourceLosesRun | packages/connectors/src/portfolio_manager/connectors/zerodha.py:116-126 | a payload that passes its own constructor aborts a run that already has an artifact |
| Collection.CollectDecomposes | packages/connectors/src/portfolio_manager/connectors/zerodha.py:89-141 | with a stateless transport a run is aborted exactly when a capability with no authentication failure before it aborts alone; otherwise each outcome is that of the capability alone, unless an earlier capability hit an authentication failure: then a supported one fails with exactly that first issue and an unsupported one stays unsupported |
| ZerodhaConnector.Connector.FetchCapability | packages/connectors/src/portfolio_manager/connectors/zerodha.py:111-133 | the inner loop fetches, counts and notes exactly what the segment of the capability contains, and leaves it at an authentication failure or an exception |
| ZerodhaConnector.Connector.CollectCapability | packages/connectors/src/portfolio_manager/connectors/zerodha.py:90-141 | the body of the outer loop is one step of the run |
| ZerodhaConnector.Connector.CollectInOrder | packages/connectors/src/portfolio_manager/connectors/zerodha.py:84-143 | the outer loop makes the run over the capabilities it is given, or nothing when a fetch aborts it |
| ZerodhaConnector.Connector.Collect | packages/connectors/src/portfolio_manager/connectors/zerodha.py:76-143 | fetches nothing and raises an authentication error with the state's reason when not ready; otherwise the recorded fetches and the result are those of the run over the sorted capabilities; it returns a result exactly when no fetch aborted the run, a returned result is valid, and its artifacts carry what was fetched |
| HttpTransport.ReadBounded | packages/connectors/src/portfolio_manager/connectors/zerodha_http.py:144-163 | a body is returned exactly when its declared and real size fit the limit and it ended normally, and then it is what was sent, byte for byte and chunk after chunk; a bad length and an oversized body have their errors |
| HttpTransport.ConcatInOrder | packages/connectors/src/portfolio_manager/connectors/zerodha_http.py:157-163 | each byte stands after all earlier chunks and after the earlier bytes of its own |
| HttpTransport.CutsReadTheSame | packages/connectors/src/portfolio_manager/connectors/zerodha_http.py:157-163 | two ways of cutting the same bytes into chunks read the same |
| HttpTransport.RetryAfterReadsBack | packages/connectors/src/portfolio_manager/connectors/zerodha_http.py:186-194 | a number written in the header, with leading zeros or without, comes back as the delay exactly when it is from 1 to 86400 and is otherwise ignored; only more than 4300 characters are not converted |
| HttpTransport.DecimalForm | packages/connectors/src/portfolio_manager/connectors/zerodha_http.py:188-191 | every decimal header is some zeros followed by the digits of its number |
| HttpTransport.RetryAfterIgnores | packages/connectors/src/portfolio_manager/connectors/zerodha_http.py:187-190 | a header that is not a plain decimal number gives no delay |
| HttpTransport.StatusDecides | packages/connectors/src/portfolio_manager/connectors/zerodha_http.py:165-184 | every status outside 2xx: its kind and its reason |
| HttpTransport.RateLimitCarriesDelay | packages/connectors/src/portfolio_manager/connectors/zerodha_http.py:172-194 | the delay written in the header reaches the rate-limit error, up to a day |
| HttpTransport.FaultsAreTranslated | packages/connectors/src/portfolio_manager/connectors/zerodha_http.py:114-119 | a timeout and a network error without a response are transient errors |
| HttpTransport.BadBodiesFail | packages/connectors/src/portfolio_manager/connectors/zerodha_http.py:112-121 | a 2xx answer that does not fit, is interrupted or is empty: its error |
| HttpTransport.GoodBodyIsPayload | packages/connectors/src/portfolio_manager/connectors/zerodha_http.py:110-122 | a full 2xx answer is a payload of the bytes sent, with the server's media type or the default one |
| HttpTransport.HttpxKiteTransport.Fetch | packages/connectors/src/portfolio_manager/connectors/zerodha_http.py:96-122 | a GET is sent only with a ready session, and the answer is the fetch decision, with the delay of a rate limit |
| HttpTransport.FetchCrashesExactly | packages/connectors/src/portfolio_manager/connectors/zerodha_http.py:104-122 | a fetch yields a payload or a connector error except, exactly, for a blank or padded media type, for an untranslated HTTP error and for an over-long delay |
| HttpTransport.BlankMediaTypeCrashes | packages/connectors/src/portfolio_manager/connectors/zerodha_http.py:112-122 | one byte with an empty content type is such an answer |
| HttpTransport.OverlongDelayCrashes | packages/connectors/src/portfolio_manager/connectors/zerodha_http.py:172-191 | a rate limit with a delay of 5000 digits is such an answer |
| HttpTransport.FetchIsConstructed | packages/connectors/src/portfolio_manager/connectors/zerodha_http.py:96-122 | every payload and error of a fetch satisfies its constructor, the delay included, and no payload carries a source time |
| HttpCollection.GetsFollowThePlan | packages/connectors/src/portfolio_manager/connectors/zerodha_http.py:96-108 | the GETs of a run are its planned endpoints in order, each at the reading of its fetch; only the last fetch may lack one, exactly when it found the session unusable |
| HttpCollection.GetsPrecedeExpiry | packages/connectors/src/portfolio_manager/connectors/zerodha_http.py:85-102 | every GET of a run is sent at a reading strictly before the session's expiry |
| HttpCollection.ExpiryEndsCollection | packages/connectors/src/portfolio_manager/connectors/zerodha_http.py:85-102 | once a fetch sees a reading at or after the expiry no further GET occurs and every later supported capability fails with the expired-session issue alone |
| HttpCollection.RefusedSessionEndsCollection | packages/connectors/src/portfolio_manager/connectors/zerodha_http.py:170-171 | a GET answered with 401 or 403 is the last one, and every later supported capability fails with the expired-session issue alone |
| HttpCollection.RefusedRequestGoesOn | packages/connectors/src/portfolio_manager/connectors/zerodha_http.py:172-184 | a GET answered with any other status outside 2xx fails that fetch only, unless its delay is over-long |
| HttpCollection.EarlyRunSendsAll | packages/connectors/src/portfolio_manager/connectors/zerodha_http.py:85-102 | a run whose last reading is within six hours of the exchange sends a GET for every fetch |
| HttpCollection.HttpRunAbortsExactly | packages/connectors/src/portfolio_manager/connectors/zerodha_http.py:104-122 | over HTTP a run has no result exactly when one of its GETs got one of the three escaping answers |
| HttpCollection.CollectOverHttp | packages/connectors/src/portfolio_manager/connectors/zerodha.py:76-143 | `collect` over the HTTP transport as a whole: not ready at the first look, no GET and an error with its reason; otherwise the GETs the transport recorded are those of the run, all before the expiry; a late reading ends it, as does a 401 or 403, and no other refusal; a result comes back exactly when no GET was answered in an escaping way, and carries what was fetched |
| Envelope.FrameLayout | packages/persistence/src/portfolio_manager/persistence/envelope.py:136-137 | the frame is the fixed text, the version and the data, each apart from the next by one zero byte |
| Envelope.KeyVersionTest | packages/persistence/src/portfolio_manager/persistence/envelope.py:125-133 | a version is 1 to 64 ASCII letters, digits, dots, underscores and hyphens |
| Envelope.FramingInjective | packages/persistence/src/portfolio_manager/persistence/envelope.py:136-137 | valid versions and associated data never share a frame |
| Envelope.FramingNeedsValidVersions | packages/persistence/src/portfolio_manager/persistence/envelope.py:125-137 | without version validation the separator could move |
| Envelope.EncryptYieldsValidSecret | packages/persistence/src/portfolio_manager/persistence/envelope.py:56-78 | encryption fails exactly on bad associated data or without a usable key and never trips its result's constructor, for the empty plaintext too |
| Envelope.DecryptsAfterRotation | packages/persistence/src/portfolio_manager/persistence/envelope.py:66-93 | any later provider that resolves the recorded version to the same key gives the plaintext back |
| Envelope.OtherContextNeedsForgery | packages/persistence/src/portfolio_manager/persistence/envelope.py:81-93 | every later provider and context: under other associated data or a relabelled key a secret opens only if the cipher was forged, under other key material only if the wrapping was and the forged key opens the ciphertext |
| Envelope.FileProviderKeepsOneVersion | packages/persistence/src/portfolio_manager/persistence/envelope.py:98-121 | whatever label and content the key file has later: unless wrapping is forged, an old secret opens if and only if both are the same, and each other case has its error |
| Envelope.ReplacedFileLosesSecret | packages/persistence/src/portfolio_manager/persistence/envelope.py:106-121 | new content under the same label makes an old secret fail authentication |

## Left out

- Parsing: TOML, the Python syntax tree, directory walking and path normalisation are inputs. A version such as `true`
  or `1.0`, which Python also finds equal to 1, and wrongly typed tables are not representable.
- The import set of a file is what the syntax walk returns; relative imports and names imported from a package are not claimed.
- Python's recursion limit, which a chain of about a thousand modules would reach in `detect_cycles`.
- ImportChecking.CheckArchitecture: an error of the parser outside the three caught classes, such as a recursion or memory
  error on a deeply nested file, ends the script with a traceback and also with exit code 1; it is not represented.
- Messages: violations and errors are records; their texts are not modelled. The record of an unreadable file also names
  the module under which it was found, which the text does not.
- Database sessions, transactions, row-level security and the `created_at` column: `issue` and `consume` are atomic steps.
- The token exchange over HTTP: its answer is a parameter of `complete`; only the expiry it computes is modelled. Its
  reading loop is that of `HttpTransport.ReadBounded` without a declared length and with a limit of one mebibyte.
- AES-GCM, AES-KWP and SHA-256 are functions; size limits beyond the modelled ones, and randomness, are not.
- Key-file permission checks, key files that cannot be read, hidden representations, logging, checkpoints and coverage.
- Errors raised while an HTTP response is being closed.
- The content digest of an artifact, which is computed from its payload on construction.
- Time zones: Kolkata is a fixed offset of five and a half hours; naive clock values are not representable, nor are
  times whose UTC reading lies outside the years 1 to 9999.
- ZerodhaConnector.Connector.Collect: the transport object records one run, so its record is empty when the run starts.
- HttpCollection.CollectOverHttp: gives every fetch a clock reading, also where a session without expiry reads no clock.
- Envelope.OtherContextNeedsForgery: the strength of cipher and key wrapping against forgery is not part of this model.
