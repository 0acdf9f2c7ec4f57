/** Collection over HTTP, with a session that may run out during the run. */
module HttpCollection {
  import opened Wrappers
  import opened Connectors
  import opened Collection
  import opened KiteSessions
  import opened HttpTransport
  import opened ZerodhaConnector

  const EXPIRED := ConnectorIssue("session.expired")
  const MISSING := ConnectorIssue("session.missing")

  /** The run over HTTP: what `collect` does once the first look at the session found it ready. */
  function HttpRun(session: Session, readings: nat -> int, replies: (nat, KiteEndpoint) -> Reply,
                   caps: seq<Capability>): Progress {
    CollectAll(caps, HttpScript(session, readings, replies))
  }

  /** A script that answers every fetch made without a ready session by an authentication failure. */
  ghost predicate Gated(script: Script, session: Session, readings: nat -> int) {
    forall n, e :: !ReadyAt(session, readings(n)) ==>
      && AuthFailure(script(n, e))
      && ConnectorIssue(script(n, e).error.reasonCode) == if session.accessToken.Some? then EXPIRED else MISSING
  }

  lemma HttpScriptIsGated(session: Session, readings: nat -> int, replies: (nat, KiteEndpoint) -> Reply)
    ensures Gated(HttpScript(session, readings, replies), session, readings)
  {
    var script := HttpScript(session, readings, replies);
    forall n: nat, e | !ReadyAt(session, readings(n))
      ensures AuthFailure(script(n, e))
      ensures ConnectorIssue(script(n, e).error.reasonCode) == if session.accessToken.Some? then EXPIRED else MISSING
    {
      assert script(n, e) == FetchAt(session, readings(n), e, replies(n, e));
    }
  }

  /** Only the last fetch of a run can find the session unusable. */
  lemma OnlyLastUnready(session: Session, readings: nat -> int, caps: seq<Capability>, script: Script, p: Progress)
    requires Gated(script, session, readings) && RunSoFar(p, caps, script)
    ensures forall j :: 0 <= j < |p.trace| && !ReadyAt(session, readings(j)) ==>
              j == |p.trace| - 1 && AuthFailure(p.trace[j].result)
  {
    forall j | 0 <= j < |p.trace| && !ReadyAt(session, readings(j))
      ensures j == |p.trace| - 1 && AuthFailure(p.trace[j].result)
    {
      assert p.trace[j].result == script(0 + j, p.trace[j].endpoint);
      assert Stops(p.trace[j].result);
    }
  }

  lemma {:induction false} ReadySends(session: Session, readings: nat -> int, trace: seq<Collection.Fetch>)
    requires forall k :: 0 <= k < |trace| ==> ReadyAt(session, readings(k))
    ensures |Gets(session, readings, trace)| == |trace|
    ensures forall k :: 0 <= k < |trace| ==> Gets(session, readings, trace)[k] == Get(trace[k].endpoint, readings(k))
  {
    if trace == [] {
    } else {
      var front := trace[..|trace| - 1];
      ReadySends(session, readings, front);
      assert forall k :: 0 <= k < |front| ==> front[k] == trace[k];
    }
  }

  /** Where only the last fetch can be unready, the GETs are the other fetches, and it as well when it is ready. */
  lemma GetsOfReady(session: Session, readings: nat -> int, trace: seq<Collection.Fetch>)
    requires forall k :: 0 <= k < |trace| - 1 ==> ReadyAt(session, readings(k))
    ensures var gets := Gets(session, readings, trace);
            && |gets| == (if trace != [] && !ReadyAt(session, readings(|trace| - 1)) then |trace| - 1 else |trace|)
            && (forall k :: 0 <= k < |gets| ==>
                  gets[k] == Get(trace[k].endpoint, readings(k)) && ReadyAt(session, readings(k)))
  {
    if trace == [] {
    } else {
      var front := trace[..|trace| - 1];
      ReadySends(session, readings, front);
      assert forall k :: 0 <= k < |front| ==> front[k] == trace[k];
    }
  }

  /**
   * The GETs of a run are its planned endpoints in order, one for each fetch: only the last fetch may be without,
   * and it is exactly when it found the session unusable.
   */
  lemma GetsFollowThePlan(session: Session, readings: nat -> int, replies: (nat, KiteEndpoint) -> Reply,
                          caps: seq<Capability>)
    ensures var p := HttpRun(session, readings, replies, caps);
            var gets := Gets(session, readings, p.trace);
            && |gets| <= |p.trace| <= |gets| + 1 && |gets| <= |Plan(caps)|
            && (forall k :: 0 <= k < |gets| ==>
                  gets[k] == Get(Plan(caps)[k], readings(k)) && ReadyAt(session, readings(k)))
            && (|gets| < |p.trace| <==> p.trace != [] && !ReadyAt(session, readings(|p.trace| - 1)))
  {
    var script := HttpScript(session, readings, replies);
    var p := CollectAll(caps, script);
    HttpScriptIsGated(session, readings, replies);
    TraceIsPlanCut(caps, script);
    OnlyLastUnready(session, readings, caps, script, p);
    GetsOfReady(session, readings, p.trace);
    assert forall k :: 0 <= k < |p.trace| ==> p.trace[k].endpoint == Plan(caps)[k];
  }

  /** Whatever the clock and the server do, no GET of a run is sent at or after the session's expiry. */
  lemma GetsPrecedeExpiry(session: Session, readings: nat -> int, replies: (nat, KiteEndpoint) -> Reply,
                          caps: seq<Capability>)
    requires session.expiresAt.Some?
    ensures var gets := Gets(session, readings, HttpRun(session, readings, replies, caps).trace);
            forall k :: 0 <= k < |gets| ==> gets[k].at == readings(k) < session.expiresAt.value
  {
    GetsFollowThePlan(session, readings, replies, caps);
  }

  lemma LatchedOutcome(o: CapabilityOutcome, c: Capability, issue: ConnectorIssue)
    requires OutcomeExact(o, c, [], Some(issue)) && Supported(c)
    ensures o == CapabilityOutcome(c, Failed, [issue])
  {
  }

  /** The k-th fetch ended the session: it is the last one, and every later supported capability fails for it. */
  ghost predicate EndedAt(p: Progress, caps: seq<Capability>, k: nat) {
    && k == |p.trace| - 1 && !p.crashed && p.latch == Some(ConnectorIssue("session.expired"))
    && |p.outcomes| == |caps|
    && forall i :: 0 <= i < |caps| && Supported(caps[i]) && |Plan(caps[..i])| > k ==>
         p.outcomes[i] == CapabilityOutcome(caps[i], Failed, [ConnectorIssue("session.expired")])
  }

  lemma LatchedRun(caps: seq<Capability>, script: Script, k: nat)
    requires var p := CollectAll(caps, script);
             && k < |p.trace|
             && p.trace[k].result.Failure? && p.trace[k].result.error.kind == Authentication
             && p.trace[k].result.error.reasonCode == "session.expired"
    ensures EndedAt(CollectAll(caps, script), caps, k)
  {
    var p := CollectAll(caps, script);
    LatchIsAuthenticationFailure(caps, script);
    TraceIsPlanCut(caps, script);
    OutcomesAreExact(caps, script);
    forall i | 0 <= i < |caps| && Supported(caps[i]) && |Plan(caps[..i])| > k
      ensures p.outcomes[i] == CapabilityOutcome(caps[i], Failed, [EXPIRED])
    {
      assert FetchesFor(p.trace, caps, i) == [];
      LatchedOutcome(p.outcomes[i], caps[i], EXPIRED);
    }
  }

  /** What the k-th fetch of a run got: the answer of the transport to its own reading and reply. */
  lemma FetchOfRun(session: Session, readings: nat -> int, replies: (nat, KiteEndpoint) -> Reply,
                   caps: seq<Capability>, k: nat)
    requires k < |HttpRun(session, readings, replies, caps).trace|
    ensures var p := HttpRun(session, readings, replies, caps);
            && k < |Plan(caps)| && p.trace[k].endpoint == Plan(caps)[k]
            && p.trace[k].result ==
               FetchAt(session, readings(k), Plan(caps)[k], replies(k, Plan(caps)[k]))
  {
    var script := HttpScript(session, readings, replies);
    TraceIsPlanCut(caps, script);
    assert CollectAll(caps, script).trace[k] == Collection.Fetch(Plan(caps)[k], script(0 + k, Plan(caps)[k]));
  }

  /**
   * Once a fetch sees a reading at or after the expiry, it is the last fetch: exactly the fetches before it
   * sent a GET, and every later supported capability fails with `session.expired` alone.
   */
  lemma ExpiryEndsCollection(session: Session, readings: nat -> int, replies: (nat, KiteEndpoint) -> Reply,
                             caps: seq<Capability>, k: nat)
    requires session.accessToken.Some? && session.expiresAt.Some?
    requires k < |HttpRun(session, readings, replies, caps).trace| && readings(k) >= session.expiresAt.value
    ensures var p := HttpRun(session, readings, replies, caps);
            EndedAt(p, caps, k) && |Gets(session, readings, p.trace)| == k
  {
    FetchOfRun(session, readings, replies, caps, k);
    LatchedRun(caps, HttpScript(session, readings, replies), k);
    GetsFollowThePlan(session, readings, replies, caps);
  }

  /** The server does not accept the session. */
  predicate RefusesSession(reply: Reply) {
    reply.Responded? && reply.response.status in {401, 403}
  }

  /** The server refuses the request with any other status, and without an over-long delay. */
  predicate RefusesRequest(reply: Reply) {
    && reply.Responded? && !(200 <= reply.response.status < 300) && reply.response.status !in {401, 403}
    && !OverlongDelay(reply)
  }

  /** A GET that the server answers with 401 or 403 is the last one, and ends the run like an expired session. */
  lemma RefusedSessionEndsCollection(session: Session, readings: nat -> int, replies: (nat, KiteEndpoint) -> Reply,
                                     caps: seq<Capability>, k: nat)
    requires var gets := Gets(session, readings, HttpRun(session, readings, replies, caps).trace);
             k < |gets| && RefusesSession(replies(k, gets[k].endpoint))
    ensures var p := HttpRun(session, readings, replies, caps);
            EndedAt(p, caps, k) && |Gets(session, readings, p.trace)| == k + 1
  {
    GetsFollowThePlan(session, readings, replies, caps);
    FetchOfRun(session, readings, replies, caps, k);
    var e := Plan(caps)[k];
    StatusDecides(session, readings(k), e, replies(k, e).response);
    LatchedRun(caps, HttpScript(session, readings, replies), k);
  }

  /** Any other status outside 2xx fails one fetch and lets the run go on to the next endpoint of its plan. */
  lemma RefusedRequestGoesOn(session: Session, readings: nat -> int, replies: (nat, KiteEndpoint) -> Reply,
                             caps: seq<Capability>, k: nat)
    requires var gets := Gets(session, readings, HttpRun(session, readings, replies, caps).trace);
             k < |gets| && RefusesRequest(replies(k, gets[k].endpoint))
    ensures var p := HttpRun(session, readings, replies, caps);
            && k < |p.trace| && p.trace[k].result.Failure?
            && (k + 1 < |p.trace| || k + 1 == |Plan(caps)|)
  {
    var p := HttpRun(session, readings, replies, caps);
    GetsFollowThePlan(session, readings, replies, caps);
    FetchOfRun(session, readings, replies, caps, k);
    var e := Plan(caps)[k];
    StatusDecides(session, readings(k), e, replies(k, e).response);
    assert !Stops(p.trace[k].result);
    TraceIsPlanCut(caps, HttpScript(session, readings, replies));
  }

  /** How the GETs of a run go with the clock and with what the server answers. */
  ghost predicate GetsObey(session: Session, readings: nat -> int, replies: (nat, KiteEndpoint) -> Reply,
                           caps: seq<Capability>, gets: seq<Get>) {
    var p := HttpRun(session, readings, replies, caps);
    && (forall k :: 0 <= k < |gets| && RefusesSession(replies(k, gets[k].endpoint)) ==>
          EndedAt(p, caps, k) && |gets| == k + 1)
    && (forall k :: 0 <= k < |gets| && RefusesRequest(replies(k, gets[k].endpoint)) ==>
          k + 1 < |p.trace| || k + 1 == |Plan(caps)|)
    && (session.expiresAt.Some? ==>
          && (forall k :: 0 <= k < |gets| ==> gets[k].at < session.expiresAt.value)
          && (forall k :: 0 <= k < |p.trace| && readings(k) >= session.expiresAt.value ==>
                EndedAt(p, caps, k) && |gets| == k))
  }

  lemma HttpRunObeys(session: Session, readings: nat -> int, replies: (nat, KiteEndpoint) -> Reply,
                     caps: seq<Capability>)
    requires session.accessToken.Some?
    ensures GetsObey(session, readings, replies, caps,
                     Gets(session, readings, HttpRun(session, readings, replies, caps).trace))
  {
    var p := HttpRun(session, readings, replies, caps);
    var gets := Gets(session, readings, p.trace);
    forall k | 0 <= k < |gets| && RefusesSession(replies(k, gets[k].endpoint))
      ensures EndedAt(p, caps, k) && |gets| == k + 1
    {
      RefusedSessionEndsCollection(session, readings, replies, caps, k);
    }
    forall k | 0 <= k < |gets| && RefusesRequest(replies(k, gets[k].endpoint))
      ensures k + 1 < |p.trace| || k + 1 == |Plan(caps)|
    {
      RefusedRequestGoesOn(session, readings, replies, caps, k);
    }
    if session.expiresAt.Some? {
      GetsPrecedeExpiry(session, readings, replies, caps);
      forall k | 0 <= k < |p.trace| && readings(k) >= session.expiresAt.value
        ensures EndedAt(p, caps, k) && |gets| == k
      {
        ExpiryEndsCollection(session, readings, replies, caps, k);
      }
    }
  }

  /** A run whose last reading is within six hours of the exchange sends a GET for every fetch. */
  lemma EarlyRunSendsAll(session: Session, readings: nat -> int, replies: (nat, KiteEndpoint) -> Reply,
                         caps: seq<Capability>, observedAt: int)
    requires session.accessToken.Some? && session.expiresAt == Some(SessionExpiry(observedAt))
    requires var trace := HttpRun(session, readings, replies, caps).trace;
             trace != [] ==> readings(|trace| - 1) <= observedAt + 21_600_000_000
    ensures var trace := HttpRun(session, readings, replies, caps).trace;
            |Gets(session, readings, trace)| == |trace|
  {
    GetsFollowThePlan(session, readings, replies, caps);
  }

  /** Over HTTP a run is aborted exactly when one of its GETs was answered in one of the three escaping ways. */
  lemma HttpRunAbortsExactly(session: Session, readings: nat -> int, replies: (nat, KiteEndpoint) -> Reply,
                             caps: seq<Capability>)
    ensures var p := HttpRun(session, readings, replies, caps);
            var gets := Gets(session, readings, p.trace);
            p.crashed <==> exists k :: 0 <= k < |gets| && Escapes(gets[k].endpoint, replies(k, gets[k].endpoint))
  {
    var script := HttpScript(session, readings, replies);
    var p := CollectAll(caps, script);
    var gets := Gets(session, readings, p.trace);
    GetsFollowThePlan(session, readings, replies, caps);
    TraceIsPlanCut(caps, script);
    AbortsOnTrace(caps, script);
    forall k | 0 <= k < |p.trace|
      ensures Aborts(p.trace[k].result) <==> k < |gets| && Escapes(gets[k].endpoint, replies(k, gets[k].endpoint))
    {
      var e := p.trace[k].endpoint;
      assert p.trace[k].result == script(0 + k, e) == FetchAt(session, readings(k), e, replies(k, e));
      FetchCrashesExactly(session, readings(k), e, replies(k, e));
      FetchIsConstructed(session, readings(k), e, replies(k, e));
    }
  }

  /**
   * `collect` over the HTTP transport, from the first look at the session to the end of the run. The GETs are
   * those that the transport itself has recorded.
   */
  method CollectOverHttp(session: Session, first: int, readings: nat -> int, replies: (nat, KiteEndpoint) -> Reply,
                         requested: set<Capability>, retrievedAt: int)
    returns (http: HttpxKiteTransport, r: Result<CollectionResult, CollectFailure>)
    requires requested != {}
    ensures fresh(http) && http.session == session
    ensures !ReadyAt(session, first) ==>
              && http.gets == []
              && r == Err(NotReady(ConnectorError(
                            Authentication,
                            if session.accessToken.None? then "session.missing" else "session.expired")))
    ensures var caps := CollectionOrder(requested);
            var p := HttpRun(session, readings, replies, caps);
            ReadyAt(session, first) ==>
              && http.gets == Gets(session, readings, p.trace)
              && GetsObey(session, readings, replies, caps, http.gets)
              && (r.Ok? <==> forall k :: 0 <= k < |http.gets| ==>
                               !Escapes(http.gets[k].endpoint, replies(k, http.gets[k].endpoint)))
              && (r.Ok? ==> && r.value == CollectionResult(Artifacts(p.trace, retrievedAt), p.outcomes)
                            && ValidResult(r.value) && AllCarried(r.value.artifacts, p.trace, retrievedAt))
  {
    http := new HttpxKiteTransport(session);
    var transport := new KiteTransport.OverHttp(http, first, readings, replies);
    var connector := new Connector(transport);
    HttpScriptIsConstructed(session, readings, replies);
    r := connector.Collect(requested, retrievedAt);
    if ReadyAt(session, first) {
      HttpRunObeys(session, readings, replies, CollectionOrder(requested));
      HttpRunAbortsExactly(session, readings, replies, CollectionOrder(requested));
    }
  }
}
