/** The broker-neutral connector port: its values, and what their constructors insist on. */
module Connectors {
  import opened Wrappers
  import opened Ordering
  import opened KiteAuthorization

  datatype Capability = Accounts | Holdings | Positions | Balances | Activities | Instruments | Prices | TaxLots

  /** The wire value, which also decides the order of collection. */
  function Value(c: Capability): string {
    match c
    case Accounts => "accounts"
    case Holdings => "holdings"
    case Positions => "positions"
    case Balances => "balances"
    case Activities => "activities"
    case Instruments => "instruments"
    case Prices => "prices"
    case TaxLots => "tax_lots"
  }

  predicate CapabilityLess(a: Capability, b: Capability) {
    StringLess(Value(a), Value(b))
  }

  lemma ValueInjective(a: Capability, b: Capability)
    requires Value(a) == Value(b)
    ensures a == b
  {
  }

  lemma CapabilityOrder()
    ensures StrictTotalOrder(CapabilityLess)
  {
    StringOrder();
    forall a, b ensures a == b || CapabilityLess(a, b) || CapabilityLess(b, a) {
      if Value(a) == Value(b) {
        ValueInjective(a, b);
      }
    }
  }

  /** The order of all capabilities, written out. */
  lemma CapabilitiesInOrder()
    ensures CapabilityLess(Accounts, Activities) && CapabilityLess(Activities, Balances)
    ensures CapabilityLess(Balances, Holdings) && CapabilityLess(Holdings, Instruments)
    ensures CapabilityLess(Instruments, Positions) && CapabilityLess(Positions, Prices)
    ensures CapabilityLess(Prices, TaxLots)
  {
    assert DifferAt(CharLess, "accounts", "activities", 2);
    assert DifferAt(CharLess, "activities", "balances", 0);
    assert DifferAt(CharLess, "balances", "holdings", 0);
    assert DifferAt(CharLess, "holdings", "instruments", 0);
    assert DifferAt(CharLess, "instruments", "positions", 0);
    assert DifferAt(CharLess, "positions", "prices", 1);
    assert DifferAt(CharLess, "prices", "tax_lots", 0);
    LexByFirstDifference(CharLess, "accounts", "activities");
    LexByFirstDifference(CharLess, "activities", "balances");
    LexByFirstDifference(CharLess, "balances", "holdings");
    LexByFirstDifference(CharLess, "holdings", "instruments");
    LexByFirstDifference(CharLess, "instruments", "positions");
    LexByFirstDifference(CharLess, "positions", "prices");
    LexByFirstDifference(CharLess, "prices", "tax_lots");
  }

  /** The order in which capabilities are collected. */
  ghost function CollectionOrder(requested: set<Capability>): (order: seq<Capability>)
    ensures Distinct(order)
    ensures forall c :: c in order <==> c in requested
    ensures forall i, j :: 0 <= i < j < |order| ==> CapabilityLess(order[i], order[j])
  {
    CapabilityOrder();
    Sorted(requested, CapabilityLess)
  }

  method SortCapabilities(requested: set<Capability>) returns (order: seq<Capability>)
    ensures order == CollectionOrder(requested)
  {
    CapabilityOrder();
    order := SortSet(requested, CapabilityLess);
  }

  /** A stable lowercase identifier of at most 64 characters. */
  predicate StableKey(s: string) {
    && 1 <= |s| <= 64 && 'a' <= s[0] <= 'z'
    && forall i :: 0 <= i < |s| ==> 'a' <= s[i] <= 'z' || '0' <= s[i] <= '9' || s[i] in {'_', '.', '-'}
  }

  /** Exactly the texts of 1 to 64 of these characters that begin with a letter. */
  lemma StableKeyTest(s: string)
    ensures StableKey(s) <==>
            && 1 <= |s| <= 64 && 97 <= s[0] as int <= 122
            && forall i :: 0 <= i < |s| ==>
                 var n := s[i] as int;
                 n in {45, 46, 95} || 48 <= n <= 57 || 97 <= n <= 122
  {
  }

  datatype AuthenticationStatus = Ready | ActionRequired | Expired | Revoked | Unavailable

  datatype AuthenticationState =
    AuthenticationState(status: AuthenticationStatus, reasonCode: Option<string>, expiresAt: Option<int>)

  /** What the constructor accepts: no reason when ready, a safe reason otherwise. */
  predicate ValidAuthentication(a: AuthenticationState) {
    (a.status.Ready? <==> a.reasonCode.None?) && (a.reasonCode.Some? ==> StableKey(a.reasonCode.value))
  }

  datatype FailureKind = Authentication | Permission | RateLimit | Transient | Validation | Unsupported | Permanent

  /** `retryAfter` is the delay a provider asks for, in seconds. */
  datatype ConnectorError = ConnectorError(kind: FailureKind, reasonCode: string, retryAfter: Option<int> := None)

  /** What the constructor accepts. */
  predicate ValidError(e: ConnectorError) {
    StableKey(e.reasonCode) && (e.retryAfter.Some? ==> e.retryAfter.value > 0)
  }

  datatype ConnectorIssue = ConnectorIssue(code: string)

  datatype OutcomeStatus = Succeeded | Partial | Failed | Unsupported

  datatype CapabilityOutcome =
    CapabilityOutcome(capability: Capability, status: OutcomeStatus, issues: seq<ConnectorIssue>)

  ghost predicate ValidOutcome(o: CapabilityOutcome) {
    && (o.status.Succeeded? <==> o.issues == [])
    && Distinct(o.issues)
    && forall i :: 0 <= i < |o.issues| ==> StableKey(o.issues[i].code)
  }

  /** A date and time with a zone, as a UTC instant, or without one. */
  datatype Stamp = Aware(instant: int) | Naive

  /** The digest field is `sha256(payload)` by construction and is not repeated here. */
  datatype RawArtifact = RawArtifact(payload: Bytes, mediaType: string, retrievedAt: int, connectorKey: string,
                                     schemaVersion: string, sourceAt: Option<Stamp>)

  /** A non-empty text without surrounding white space. */
  predicate Trimmed(s: string) {
    s != "" && s == Strip(s)
  }

  /** Only the two ends decide. */
  lemma TrimmedExactly(s: string)
    ensures Trimmed(s) <==> s != "" && !Whitespace(s[0]) && !Whitespace(s[|s| - 1])
  {
    StripShortens(s);
    if s != "" && !Whitespace(s[0]) {
      assert StripLeft(s) == s;
    }
  }

  /** What the constructor accepts; it converts a source time to UTC, and a naive one raises `ValueError`. */
  predicate ValidArtifact(a: RawArtifact) {
    && a.payload != [] && Trimmed(a.mediaType) && StableKey(a.connectorKey) && StableKey(a.schemaVersion)
    && a.sourceAt != Some(Naive)
  }

  datatype CollectionResult = CollectionResult(artifacts: seq<RawArtifact>, outcomes: seq<CapabilityOutcome>)

  ghost predicate ValidResult(r: CollectionResult) {
    && r.outcomes != []
    && (forall i, j :: 0 <= i < j < |r.outcomes| ==> r.outcomes[i].capability != r.outcomes[j].capability)
    && (forall i :: 0 <= i < |r.outcomes| ==> ValidOutcome(r.outcomes[i]))
    && (forall i :: 0 <= i < |r.artifacts| ==> ValidArtifact(r.artifacts[i]))
  }

  /** What the constructors of authentication states and errors refuse. */
  lemma StateRefusals(a: AuthenticationState, e: ConnectorError)
    ensures a.status == Ready && a.reasonCode.Some? ==> !ValidAuthentication(a)
    ensures a.status != Ready && a.reasonCode.None? ==> !ValidAuthentication(a)
    ensures a.reasonCode == Some("") ==> !ValidAuthentication(a)
    ensures e.reasonCode == "" || (e.retryAfter.Some? && e.retryAfter.value <= 0) ==> !ValidError(e)
  {
  }

  /** What the constructor of artifacts refuses: an empty payload, a padded type, an unusable key, a naive time. */
  lemma ArtifactRefusals(a: RawArtifact)
    ensures a.payload == [] || a.mediaType == "" || a.sourceAt == Some(Naive) ==> !ValidArtifact(a)
    ensures a.mediaType != "" && Whitespace(a.mediaType[0]) ==> !ValidArtifact(a)
    ensures a.mediaType != "" && Whitespace(a.mediaType[|a.mediaType| - 1]) ==> !ValidArtifact(a)
    ensures a.connectorKey == "" || a.schemaVersion == "" ==> !ValidArtifact(a)
  {
    TrimmedExactly(a.mediaType);
  }

  /** What the constructors of outcomes and results refuse. */
  lemma ResultRefusals(o: CapabilityOutcome, r: CollectionResult)
    ensures o.status == Succeeded && o.issues != [] ==> !ValidOutcome(o)
    ensures o.status != Succeeded && o.issues == [] ==> !ValidOutcome(o)
    ensures (exists i, j :: 0 <= i < j < |o.issues| && o.issues[i] == o.issues[j]) ==> !ValidOutcome(o)
    ensures ConnectorIssue("") in o.issues ==> !ValidOutcome(o)
    ensures r.outcomes == [] ==> !ValidResult(r)
    ensures (exists i, j :: 0 <= i < j < |r.outcomes| && r.outcomes[i].capability == r.outcomes[j].capability) ==>
              !ValidResult(r)
  {
  }
}
