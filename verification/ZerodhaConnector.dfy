/** The collection loop of the connector, run against a transport that keeps a record of its fetches. */
module ZerodhaConnector {
  import opened Wrappers
  import opened Connectors
  import opened Collection
  import opened HttpTransport
  import opened KiteSessions

  /** What stands behind the transport protocol: an arbitrary script, or the HTTP transport, a clock and a server. */
  datatype Backend =
    | Scripted
    | Http(transport: HttpxKiteTransport, readings: nat -> int, replies: (nat, KiteEndpoint) -> Reply)

  /** The transport protocol, with the record of one run: the n-th fetch gets the n-th answer of the script. */
  class KiteTransport {
    const backend: Backend
    const authentication: AuthenticationState
    const script: Script
    var trace: seq<Fetch>

    constructor (authentication: AuthenticationState, script: Script)
      ensures this.authentication == authentication && this.script == script && trace == []
      ensures backend == Scripted && Valid()
    {
      backend := Scripted;
      this.authentication, this.script := authentication, script;
      trace := [];
    }

    /** The HTTP transport, asked for its authentication state at `first` and then for fetches. */
    constructor OverHttp(http: HttpxKiteTransport, first: int, readings: nat -> int,
                         replies: (nat, KiteEndpoint) -> Reply)
      requires http.gets == []
      ensures authentication == AuthenticationAt(http.session, first)
      ensures script == HttpScript(http.session, readings, replies) && trace == []
      ensures backend == Http(http, readings, replies) && Valid()
    {
      backend := Http(http, readings, replies);
      authentication, script := AuthenticationAt(http.session, first), HttpScript(http.session, readings, replies);
      trace := [];
    }

    ghost function Repr(): set<object> {
      if backend.Http? then {this, backend.transport} else {this}
    }

    /** Over HTTP, the script is that of the session, and the GETs sent are those of the fetches made. */
    ghost predicate Valid()
      reads Repr()
    {
      backend.Http? ==>
        && script == HttpScript(backend.transport.session, backend.readings, backend.replies)
        && backend.transport.gets == Gets(backend.transport.session, backend.readings, trace)
    }

    method Fetch(endpoint: KiteEndpoint) returns (r: Fetched)
      requires Valid()
      modifies Repr()
      ensures Valid()
      ensures r == script(|old(trace)|, endpoint)
      ensures trace == old(trace) + [Collection.Fetch(endpoint, r)]
    {
      match backend {
        case Scripted =>
          r := script(|trace|, endpoint);
        case Http(transport, readings, replies) =>
          r := transport.Fetch(endpoint, readings(|trace|), replies(|trace|, endpoint));
      }
      ghost var before := trace;
      trace := trace + [Collection.Fetch(endpoint, r)];
      assert trace[..|trace| - 1] == before;
    }
  }

  /** `collect` raises a connector error when not authenticated, and lets any other exception through. */
  datatype CollectFailure = NotReady(error: ConnectorError) | Propagated

  lemma NotReadyIsKey()
    ensures StableKey("session.not_ready")
  {
  }

  function NotReadyError(a: AuthenticationState): (e: ConnectorError)
    requires ValidAuthentication(a) && !a.status.Ready?
    ensures ValidError(e)
  {
    NotReadyIsKey();
    ConnectorError(Authentication, if a.reasonCode.Some? then a.reasonCode.value else "session.not_ready")
  }

  /** What one more fetch does to everything the inner loop keeps. */
  lemma OneMore(done: seq<Collection.Fetch>, trace: seq<Collection.Fetch>, fetch: Collection.Fetch, retrievedAt: int)
    ensures Issues(done + [fetch]) ==
            if fetch.result.Failure? && ConnectorIssue(fetch.result.error.reasonCode) !in Issues(done)
            then Issues(done) + [ConnectorIssue(fetch.result.error.reasonCode)] else Issues(done)
    ensures Successes(done + [fetch]) == Successes(done) + if Kept(fetch.result) then 1 else 0
    ensures StopIssue(done + [fetch]) ==
            if AuthFailure(fetch.result) then Some(ConnectorIssue(fetch.result.error.reasonCode)) else None
    ensures EndsInCrash(done + [fetch]) == Aborts(fetch.result)
    ensures Artifacts(trace + [fetch], retrievedAt) ==
            Artifacts(trace, retrievedAt) + if Kept(fetch.result) then [ArtifactOf(fetch, retrievedAt)] else []
  {
  }

  /** What the inner loop has counted and noted of the fetches it has made. */
  ghost predicate Tallied(fetches: seq<Collection.Fetch>, successful: nat, issues: seq<ConnectorIssue>,
                          latch: Option<ConnectorIssue>, crashed: bool) {
    && successful == Successes(fetches) && issues == Issues(fetches)
    && latch == StopIssue(fetches) && crashed == EndsInCrash(fetches)
  }

  /** The inner loop after `j` fetches of which none stopped it. */
  ghost predicate Underway(done: seq<Collection.Fetch>, endpoints: seq<KiteEndpoint>, j: nat, script: Script, n: nat) {
    j <= |endpoints| && |done| == j && CutOf(done, endpoints[..j], script, n) && !EndsStopped(done)
  }

  lemma UnderwayNext(done: seq<Collection.Fetch>, endpoints: seq<KiteEndpoint>, j: nat, script: Script, n: nat,
                     fetch: Collection.Fetch)
    requires Underway(done, endpoints, j, script, n) && j < |endpoints|
    requires fetch == Collection.Fetch(endpoints[j], script(n + j, endpoints[j]))
    ensures if Stops(fetch.result) then CutOf(done + [fetch], endpoints, script, n)
            else Underway(done + [fetch], endpoints, j + 1, script, n)
  {
    CutOneMore(done, endpoints, j, script, n);
  }

  lemma UnderwayDone(done: seq<Collection.Fetch>, endpoints: seq<KiteEndpoint>, script: Script, n: nat)
    requires Underway(done, endpoints, |endpoints|, script, n)
    ensures CutOf(done, endpoints, script, n)
  {
    assert endpoints[..|endpoints|] == endpoints;
  }

  /**
   * The end of a run: aborted by one of its fetches, or with a result that every constructor accepts; either way
   * the artifacts carry exactly what the kept fetches brought.
   */
  lemma Verdict(requested: set<Capability>, script: Script, retrievedAt: int)
    requires requested != {} && ConstructedScript(script)
    ensures var p := CollectAll(CollectionOrder(requested), script);
            && (p.crashed <==> exists k :: 0 <= k < |p.trace| && Aborts(p.trace[k].result))
            && (!p.crashed ==> ValidResult(CollectionResult(Artifacts(p.trace, retrievedAt), p.outcomes)))
            && AllCarried(Artifacts(p.trace, retrievedAt), p.trace, retrievedAt)
  {
    ArtifactsAreTheSuccesses(CollectAll(CollectionOrder(requested), script).trace, retrievedAt);
    var order := CollectionOrder(requested);
    var some :| some in requested;
    assert some in order;
    ResultIsValid(order, script, retrievedAt);
  }

  class Connector {
    const transport: KiteTransport

    constructor (transport: KiteTransport)
      ensures this.transport == transport
    {
      this.transport := transport;
    }

    /** The body of the inner loop: one fetch, and what is kept of its answer. */
    method FetchNext(endpoint: KiteEndpoint, retrievedAt: int, collected: seq<RawArtifact>, count: nat,
                     known: seq<ConnectorIssue>, ghost base: seq<Collection.Fetch>, ghost done: seq<Collection.Fetch>)
      returns (artifacts: seq<RawArtifact>, successful: nat, issues: seq<ConnectorIssue>,
               latch: Option<ConnectorIssue>, crashed: bool, ghost fetch: Collection.Fetch)
      requires transport.Valid()
      requires transport.trace == base + done
      requires collected == Artifacts(transport.trace, retrievedAt) && count == Successes(done) && known == Issues(done)
      modifies transport.Repr()
      ensures transport.Valid()
      ensures fetch == Collection.Fetch(endpoint, transport.script(|base| + |done|, endpoint))
      ensures transport.trace == base + (done + [fetch])
      ensures artifacts == Artifacts(transport.trace, retrievedAt)
      ensures Tallied(done + [fetch], successful, issues, latch, crashed)
      ensures Stops(fetch.result) <==> latch.Some? || crashed
    {
      var result := transport.Fetch(endpoint);
      fetch := Collection.Fetch(endpoint, result);
      OneMore(done, base + done, fetch, retrievedAt);
      assert base + (done + [fetch]) == base + done + [fetch];
      artifacts, successful, issues, latch, crashed := collected, count, known, None, false;
      match result {
        case Payload(_, _, _) =>
          // The artifact constructor refuses exactly the others: see `ArtifactRefusedExactly`.
          if Kept(result) {
            artifacts := artifacts + [ArtifactOf(Collection.Fetch(endpoint, result), retrievedAt)];
            successful := successful + 1;
          } else {
            crashed := true;
          }
        case Failure(error) =>
          var issue := ConnectorIssue(error.reasonCode);
          if issue !in issues {
            issues := issues + [issue];
          }
          if error.kind.Authentication? {
            latch := Some(issue);
          }
        case Crash =>
          crashed := true;
      }
    }

    /** The inner loop: the fetches of one supported capability, cut just after a stopping answer. */
    method FetchCapability(endpoints: seq<KiteEndpoint>, retrievedAt: int, collected: seq<RawArtifact>)
      returns (artifacts: seq<RawArtifact>, successful: nat, issues: seq<ConnectorIssue>,
               latch: Option<ConnectorIssue>, crashed: bool, ghost done: seq<Collection.Fetch>)
      requires transport.Valid()
      requires collected == Artifacts(transport.trace, retrievedAt)
      modifies transport.Repr()
      ensures transport.Valid() && transport.trace == old(transport.trace) + done
      ensures CutOf(done, endpoints, transport.script, |old(transport.trace)|)
      ensures Tallied(done, successful, issues, latch, crashed)
      ensures artifacts == Artifacts(transport.trace, retrievedAt)
    {
      ghost var base, script, n := transport.trace, transport.script, |transport.trace|;
      artifacts, successful, issues, latch, crashed, done := collected, 0, [], None, false, [];
      for j := 0 to |endpoints|
        invariant transport.Valid() && transport.trace == base + done
        invariant Underway(done, endpoints, j, script, n)
        invariant Tallied(done, successful, issues, latch, crashed)
        invariant artifacts == Artifacts(transport.trace, retrievedAt)
      {
        ghost var fetch;
        artifacts, successful, issues, latch, crashed, fetch :=
          FetchNext(endpoints[j], retrievedAt, artifacts, successful, issues, base, done);
        assert |base| + |done| == n + j;
        UnderwayNext(done, endpoints, j, script, n, fetch);
        done := done + [fetch];
        if latch.Some? || crashed {
          return;
        }
      }
      UnderwayDone(done, endpoints, script, n);
    }

    /** The body of the outer loop: the outcome of one capability, unless a fetch for it crashes. */
    method CollectCapability(c: Capability, retrievedAt: int, collected: seq<RawArtifact>,
                             latch: Option<ConnectorIssue>, ghost outcomes: seq<CapabilityOutcome>)
      returns (artifacts: seq<RawArtifact>, outcome: Option<CapabilityOutcome>,
               authenticationIssue: Option<ConnectorIssue>)
      requires transport.Valid()
      requires collected == Artifacts(transport.trace, retrievedAt)
      modifies transport.Repr()
      ensures transport.Valid() && artifacts == Artifacts(transport.trace, retrievedAt)
      ensures var p := CollectOne(Progress(old(transport.trace), outcomes, latch, false), c, transport.script);
              && transport.trace == p.trace && p.crashed == outcome.None?
              && (outcome.Some? ==> p.outcomes == outcomes + [outcome.value] && p.latch == authenticationIssue)
    {
      var endpoints := Endpoints(c);
      artifacts, authenticationIssue := collected, latch;
      if endpoints == [] {
        outcome := Some(CapabilityOutcome(c, OutcomeStatus.Unsupported, [UNSUPPORTED]));
      } else if latch.Some? {
        outcome := Some(CapabilityOutcome(c, Failed, [latch.value]));
      } else {
        var successful, issues, crashed;
        ghost var done;
        artifacts, successful, issues, authenticationIssue, crashed, done :=
          FetchCapability(endpoints, retrievedAt, collected);
        ghost var script, n := transport.script, |old(transport.trace)|;
        SegmentIsCut(endpoints, script, n);
        CutIsUnique(done, Segment(endpoints, script, n), endpoints, script, n);
        if crashed {
          outcome := None;
        } else {
          var status := if issues == [] then Succeeded else if successful > 0 then Partial else Failed;
          outcome := Some(CapabilityOutcome(c, status, issues));
        }
      }
    }

    /** The outer loop over capabilities in a given order; there is nothing to return when a fetch aborts it. */
    method CollectInOrder(order: seq<Capability>, retrievedAt: int) returns (r: Option<CollectionResult>)
      requires transport.Valid() && transport.trace == []
      modifies transport.Repr()
      ensures transport.Valid()
      ensures var p := CollectAll(order, transport.script);
              && transport.trace == p.trace
              && r == if p.crashed then None
                      else Some(CollectionResult(Artifacts(p.trace, retrievedAt), p.outcomes))
    {
      var artifacts: seq<RawArtifact> := [];
      var outcomes: seq<CapabilityOutcome> := [];
      var authenticationIssue: Option<ConnectorIssue> := None;
      ghost var script := transport.script;
      for i := 0 to |order|
        invariant CollectAll(order[..i], script) == Progress(transport.trace, outcomes, authenticationIssue, false)
        invariant transport.Valid() && artifacts == Artifacts(transport.trace, retrievedAt)
      {
        CollectNext(order, i, script);
        var outcome;
        artifacts, outcome, authenticationIssue :=
          CollectCapability(order[i], retrievedAt, artifacts, authenticationIssue, outcomes);
        if outcome.None? {
          StaysCrashed(order, i + 1, script);
          return None;
        }
        outcomes := outcomes + [outcome.value];
      }
      assert order[..|order|] == order;
      return Some(CollectionResult(artifacts, outcomes));
    }

    /** Not ready, nothing is fetched; otherwise the capabilities are collected in the order of their wire values. */
    method Collect(requested: set<Capability>, retrievedAt: int) returns (r: Result<CollectionResult, CollectFailure>)
      requires requested != {} && ValidAuthentication(transport.authentication) && ConstructedScript(transport.script)
      requires transport.Valid() && transport.trace == []
      modifies transport.Repr()
      ensures transport.Valid()
      ensures !transport.authentication.status.Ready? ==>
                && transport.trace == [] && transport.authentication.reasonCode.Some?
                && r == Err(NotReady(ConnectorError(Authentication, transport.authentication.reasonCode.value)))
      ensures transport.authentication.status.Ready? ==>
                var p := CollectAll(CollectionOrder(requested), transport.script);
                && transport.trace == p.trace
                && r == if p.crashed then Err(Propagated)
                        else Ok(CollectionResult(Artifacts(p.trace, retrievedAt), p.outcomes))
      ensures r.Ok? ==> ValidResult(r.value)
      ensures r.Ok? ==> AllCarried(r.value.artifacts, transport.trace, retrievedAt)
      ensures transport.authentication.status.Ready? ==>
                (r.Ok? <==> forall k :: 0 <= k < |transport.trace| ==> !Aborts(transport.trace[k].result))
    {
      if !transport.authentication.status.Ready? {
        return Err(NotReady(NotReadyError(transport.authentication)));
      }
      var order := SortCapabilities(requested);
      var collected := CollectInOrder(order, retrievedAt);
      Verdict(requested, transport.script, retrievedAt);
      if collected.None? {
        return Err(Propagated);
      }
      return Ok(collected.value);
    }
  }

  lemma CollectNext(caps: seq<Capability>, i: nat, script: Script)
    requires i < |caps|
    ensures CollectAll(caps[..i + 1], script) == CollectOne(CollectAll(caps[..i], script), caps[i], script)
  {
    assert caps[..i + 1][..i] == caps[..i];
  }

  lemma {:induction false} StaysCrashed(caps: seq<Capability>, i: nat, script: Script)
    requires i <= |caps| && CollectAll(caps[..i], script).crashed
    ensures CollectAll(caps, script) == CollectAll(caps[..i], script)
    decreases |caps|
  {
    if i == |caps| {
      assert caps[..i] == caps;
    } else {
      var front := caps[..|caps| - 1];
      assert front[..i] == caps[..i];
      StaysCrashed(front, i, script);
    }
  }
}
