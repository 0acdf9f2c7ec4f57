/** What one collection run does to a transport, as a function of the transport's answers. */
module Collection {
  import opened Wrappers
  import opened Ordering
  import opened KiteAuthorization
  import opened Connectors

  datatype KiteEndpoint =
    HoldingsEndpoint | PositionsEndpoint | FundsEndpoint | OrdersEndpoint | TradesEndpoint | InstrumentsEndpoint

  function EndpointValue(e: KiteEndpoint): string {
    match e
    case HoldingsEndpoint => "holdings"
    case PositionsEndpoint => "positions"
    case FundsEndpoint => "funds"
    case OrdersEndpoint => "orders"
    case TradesEndpoint => "trades"
    case InstrumentsEndpoint => "instruments"
  }

  /** The endpoints of a capability; none at all for what the connector does not support. */
  function Endpoints(c: Capability): seq<KiteEndpoint> {
    match c
    case Holdings => [HoldingsEndpoint]
    case Positions => [PositionsEndpoint]
    case Balances => [FundsEndpoint]
    case Activities => [OrdersEndpoint, TradesEndpoint]
    case Instruments => [InstrumentsEndpoint]
    case _ => []
  }

  /** Every endpoint is fetched for exactly one capability, and orders are fetched before trades. */
  lemma EndpointsPartition(e: KiteEndpoint)
    ensures exists c :: e in Endpoints(c)
    ensures forall c, d :: e in Endpoints(c) && e in Endpoints(d) ==> c == d
    ensures forall c, i, j :: 0 <= i < j < |Endpoints(c)| ==> Endpoints(c)[i] != Endpoints(c)[j]
    ensures Endpoints(Activities) == [OrdersEndpoint, TradesEndpoint]
    ensures FundsEndpoint in Endpoints(Balances)
  {
    assert HoldingsEndpoint in Endpoints(Holdings) && PositionsEndpoint in Endpoints(Positions);
    assert FundsEndpoint in Endpoints(Balances) && InstrumentsEndpoint in Endpoints(Instruments);
    assert OrdersEndpoint in Endpoints(Activities) && TradesEndpoint in Endpoints(Activities);
  }

  /** Endpoints have different names, and the name of their capability where that has one. */
  lemma EndpointNames(d: KiteEndpoint, e: KiteEndpoint)
    ensures EndpointValue(d) == EndpointValue(e) ==> d == e
    ensures forall c :: e in Endpoints(c) && c in {Holdings, Positions, Instruments} ==> EndpointValue(e) == Value(c)
    ensures EndpointValue(FundsEndpoint) == "funds" && EndpointValue(OrdersEndpoint) == "orders"
    ensures EndpointValue(TradesEndpoint) == "trades"
  {
  }

  predicate Supported(c: Capability) {
    Endpoints(c) != []
  }

  /** An answer to one fetch: a payload, a connector error, or any other exception. */
  datatype Fetched =
    | Payload(body: Bytes, mediaType: string, sourceAt: Option<Stamp> := None)
    | Failure(error: ConnectorError)
    | Crash

  /** What the constructors of payloads and connector errors let through; neither looks at a source time. */
  predicate Constructed(f: Fetched) {
    match f
    case Payload(body, mediaType, _) => body != [] && Trimmed(mediaType)
    case Failure(error) => ValidError(error)
    case Crash => true
  }

  predicate AuthFailure(f: Fetched) {
    f.Failure? && f.error.kind.Authentication?
  }

  /** A payload that can become an artifact: its source time is absent or has a zone. */
  predicate Kept(f: Fetched) {
    f.Payload? && f.sourceAt != Some(Naive)
  }

  /** What ends the run without a result: an exception that is no connector error, of the fetch or of the artifact. */
  predicate Aborts(f: Fetched) {
    f.Crash? || (f.Payload? && f.sourceAt == Some(Naive))
  }

  /** Nothing is fetched after an authentication failure, nor after the run has ended. */
  predicate Stops(f: Fetched) {
    AuthFailure(f) || Aborts(f)
  }

  datatype Fetch = Fetch(endpoint: KiteEndpoint, result: Fetched)

  /** A transport script: the answer to the n-th fetch of the run, whichever endpoint it is for. */
  type Script = (nat, KiteEndpoint) -> Fetched

  /** Every answer of the script passed the constructor of its value. */
  ghost predicate ConstructedScript(script: Script) {
    forall n, e :: Constructed(script(n, e))
  }

  /** The fetches made for one capability, starting as the n-th of the run. */
  function Segment(endpoints: seq<KiteEndpoint>, script: Script, n: nat): seq<Fetch> {
    if endpoints == [] then []
    else
      var fetch := Fetch(endpoints[0], script(n, endpoints[0]));
      if Stops(fetch.result) then [fetch] else [fetch] + Segment(endpoints[1..], script, n + 1)
  }

  /** The distinct failures of some fetches, in order of first occurrence. */
  function Issues(fetches: seq<Fetch>): seq<ConnectorIssue> {
    if fetches == [] then []
    else
      var earlier, last := Issues(fetches[..|fetches| - 1]), fetches[|fetches| - 1].result;
      if last.Failure? && ConnectorIssue(last.error.reasonCode) !in earlier
      then earlier + [ConnectorIssue(last.error.reasonCode)] else earlier
  }

  function Successes(fetches: seq<Fetch>): nat {
    if fetches == [] then 0
    else Successes(fetches[..|fetches| - 1]) + if Kept(fetches[|fetches| - 1].result) then 1 else 0
  }

  function Outcome(c: Capability, fetches: seq<Fetch>): CapabilityOutcome {
    var issues := Issues(fetches);
    CapabilityOutcome(c, if issues == [] then Succeeded else if Successes(fetches) > 0 then Partial else Failed, issues)
  }

  /** How far a run has come: its fetches, its outcomes, and why it no longer fetches. */
  datatype Progress =
    Progress(trace: seq<Fetch>, outcomes: seq<CapabilityOutcome>, latch: Option<ConnectorIssue>, crashed: bool)

  const UNSUPPORTED := ConnectorIssue("capability.unsupported")

  function StopIssue(fetches: seq<Fetch>): Option<ConnectorIssue> {
    if fetches != [] && AuthFailure(fetches[|fetches| - 1].result)
    then Some(ConnectorIssue(fetches[|fetches| - 1].result.error.reasonCode)) else None
  }

  predicate EndsInCrash(fetches: seq<Fetch>) {
    fetches != [] && Aborts(fetches[|fetches| - 1].result)
  }

  function CollectOne(p: Progress, c: Capability, script: Script): Progress {
    if p.crashed then p
    else if !Supported(c) then
      p.(outcomes := p.outcomes + [CapabilityOutcome(c, OutcomeStatus.Unsupported, [UNSUPPORTED])])
    else if p.latch.Some? then
      p.(outcomes := p.outcomes + [CapabilityOutcome(c, Failed, [p.latch.value])])
    else
      var fetches := Segment(Endpoints(c), script, |p.trace|);
      if EndsInCrash(fetches) then p.(trace := p.trace + fetches, crashed := true)
      else p.(trace := p.trace + fetches, outcomes := p.outcomes + [Outcome(c, fetches)], latch := StopIssue(fetches))
  }

  function CollectAll(caps: seq<Capability>, script: Script): Progress {
    if caps == [] then Progress([], [], None, false)
    else CollectOne(CollectAll(caps[..|caps| - 1], script), caps[|caps| - 1], script)
  }

  /** All endpoints of the requested capabilities, in order of collection. */
  function Plan(caps: seq<Capability>): seq<KiteEndpoint> {
    if caps == [] then [] else Plan(caps[..|caps| - 1]) + Endpoints(caps[|caps| - 1])
  }

  function ArtifactOf(fetch: Fetch, retrievedAt: int): RawArtifact
    requires fetch.result.Payload?
  {
    RawArtifact(fetch.result.body, fetch.result.mediaType, retrievedAt,
                "zerodha.kite", EndpointValue(fetch.endpoint) + ".v1", fetch.result.sourceAt)
  }

  function Artifacts(fetches: seq<Fetch>, retrievedAt: int): seq<RawArtifact> {
    if fetches == [] then []
    else
      var earlier, last := Artifacts(fetches[..|fetches| - 1], retrievedAt), fetches[|fetches| - 1];
      if Kept(last.result) then earlier + [ArtifactOf(last, retrievedAt)] else earlier
  }

  // ---- The fetches of a run ----

  predicate EndsStopped(fetches: seq<Fetch>) {
    fetches != [] && Stops(fetches[|fetches| - 1].result)
  }

  /** The fetches are for a beginning of `planned`, answered by the script from its n-th answer on. */
  ghost predicate Answers(fetches: seq<Fetch>, planned: seq<KiteEndpoint>, script: Script, n: nat) {
    && |fetches| <= |planned|
    && forall k :: 0 <= k < |fetches| ==> fetches[k] == Fetch(planned[k], script(n + k, planned[k]))
  }

  ghost predicate OnlyLastStops(fetches: seq<Fetch>) {
    forall k :: 0 <= k < |fetches| - 1 ==> !Stops(fetches[k].result)
  }

  /** `planned` as far as the script lets it go: cut just after the first stopping answer, and nowhere else. */
  ghost predicate CutOf(fetches: seq<Fetch>, planned: seq<KiteEndpoint>, script: Script, n: nat) {
    && Answers(fetches, planned, script, n)
    && OnlyLastStops(fetches)
    && (|fetches| < |planned| ==> EndsStopped(fetches))
  }

  /** A finished part that did not stop can be continued. */
  lemma CutContinues(a: seq<Fetch>, p: seq<KiteEndpoint>, b: seq<Fetch>, q: seq<KiteEndpoint>, script: Script, n: nat)
    requires CutOf(a, p, script, n) && !EndsStopped(a) && CutOf(b, q, script, n + |a|)
    ensures CutOf(a + b, p + q, script, n)
    ensures b != [] ==> EndsStopped(a + b) == EndsStopped(b)
  {
  }

  /** A stopped part stays where it is, however much more was planned. */
  lemma CutStays(a: seq<Fetch>, p: seq<KiteEndpoint>, q: seq<KiteEndpoint>, script: Script, n: nat)
    requires CutOf(a, p, script, n) && EndsStopped(a)
    ensures CutOf(a, p + q, script, n)
  {
  }

  /** One more answer extends the cut of the endpoints fetched so far; a stopping one, or the last, ends it. */
  lemma CutOneMore(done: seq<Fetch>, planned: seq<KiteEndpoint>, j: nat, script: Script, n: nat)
    requires j < |planned| && |done| == j
    requires CutOf(done, planned[..j], script, n) && !EndsStopped(done)
    ensures var fetch := Fetch(planned[j], script(n + j, planned[j]));
            && EndsStopped(done + [fetch]) == Stops(fetch.result)
            && CutOf(done + [fetch], planned[..j + 1], script, n)
            && (Stops(fetch.result) || j + 1 == |planned| ==> CutOf(done + [fetch], planned, script, n))
  {
    var fetch := Fetch(planned[j], script(n + j, planned[j]));
    assert CutOf([fetch], [planned[j]], script, n + j);
    CutContinues(done, planned[..j], [fetch], [planned[j]], script, n);
    assert planned[..j] + [planned[j]] == planned[..j + 1];
    assert planned[..j + 1] + planned[j + 1..] == planned;
    if Stops(fetch.result) {
      CutStays(done + [fetch], planned[..j + 1], planned[j + 1..], script, n);
    } else if j + 1 == |planned| {
      assert planned[..j + 1] == planned;
    }
  }

  lemma {:induction false} SegmentIsCut(endpoints: seq<KiteEndpoint>, script: Script, n: nat)
    ensures CutOf(Segment(endpoints, script, n), endpoints, script, n)
    ensures endpoints != [] ==> Segment(endpoints, script, n) != []
  {
    if endpoints == [] {
    } else {
      var fetch := Fetch(endpoints[0], script(n, endpoints[0]));
      var rest := endpoints[1..];
      assert endpoints == [endpoints[0]] + rest;
      assert CutOf([fetch], [endpoints[0]], script, n);
      if Stops(fetch.result) {
        CutStays([fetch], [endpoints[0]], rest, script, n);
      } else {
        SegmentIsCut(rest, script, n + 1);
        CutContinues([fetch], [endpoints[0]], Segment(rest, script, n + 1), rest, script, n);
      }
    }
  }

  /** The run so far: a cut of its plan, with the reason for stopping read off its last fetch. */
  ghost predicate RunSoFar(p: Progress, caps: seq<Capability>, script: Script) {
    && CutOf(p.trace, Plan(caps), script, 0)
    && p.latch == StopIssue(p.trace)
    && p.crashed == EndsInCrash(p.trace)
  }

  lemma PlanMore(front: seq<Capability>, c: Capability)
    ensures Plan(front + [c]) == Plan(front) + Endpoints(c)
  {
  }

  lemma RunFetches(p: Progress, front: seq<Capability>, c: Capability, script: Script)
    requires RunSoFar(p, front, script) && !p.crashed && p.latch.None? && Supported(c)
    ensures var fetches := Segment(Endpoints(c), script, |p.trace|);
            && CutOf(p.trace + fetches, Plan(front) + Endpoints(c), script, 0)
            && StopIssue(p.trace + fetches) == StopIssue(fetches)
            && EndsInCrash(p.trace + fetches) == EndsInCrash(fetches)
  {
    var fetches := Segment(Endpoints(c), script, |p.trace|);
    SegmentIsCut(Endpoints(c), script, |p.trace|);
    CutContinues(p.trace, Plan(front), fetches, Endpoints(c), script, 0);
    assert (p.trace + fetches)[|p.trace + fetches| - 1] == fetches[|fetches| - 1];
  }

  lemma RunContinues(p: Progress, front: seq<Capability>, c: Capability, script: Script)
    requires RunSoFar(p, front, script)
    ensures RunSoFar(CollectOne(p, c, script), front + [c], script)
  {
    PlanMore(front, c);
    if !Supported(c) {
      assert Plan(front) + Endpoints(c) == Plan(front);
    } else if p.crashed || p.latch.Some? {
      CutStays(p.trace, Plan(front), Endpoints(c), script, 0);
    } else {
      RunFetches(p, front, c, script);
    }
  }

  /** The run fetches exactly its plan, cut just after the first stopping answer, and remembers why it stopped. */
  lemma {:induction false} TraceIsPlanCut(caps: seq<Capability>, script: Script)
    ensures RunSoFar(CollectAll(caps, script), caps, script)
  {
    if caps == [] {
    } else {
      var front, c := caps[..|caps| - 1], caps[|caps| - 1];
      var p := CollectAll(front, script);
      TraceIsPlanCut(front, script);
      RunContinues(p, front, c, script);
      assert front + [c] == caps && CollectOne(p, c, script) == CollectAll(caps, script);
    }
  }

  /** Only one trace is such a cut, so the plan and the script decide every fetch of the run. */
  lemma CutIsUnique(a: seq<Fetch>, b: seq<Fetch>, planned: seq<KiteEndpoint>, script: Script, n: nat)
    requires CutOf(a, planned, script, n) && CutOf(b, planned, script, n)
    ensures a == b
  {
  }

  // ---- The outcomes of a run ----

  /** The part of `s` from `start` on, at most `length` long, as far as `s` goes. */
  function Slice<T>(s: seq<T>, start: nat, length: nat): seq<T> {
    if start >= |s| then [] else if start + length <= |s| then s[start..start + length] else s[start..]
  }

  lemma SliceStays<T>(s: seq<T>, more: seq<T>, start: nat, length: nat)
    requires more == [] || start + length <= |s|
    ensures Slice(s + more, start, length) == Slice(s, start, length)
  {
  }

  lemma SliceOfTail<T>(s: seq<T>, tail: seq<T>, length: nat)
    requires |tail| <= length
    ensures Slice(s + tail, |s|, length) == tail
  {
  }

  /** The fetches of a run that were made for the i-th capability. */
  function FetchesFor(trace: seq<Fetch>, caps: seq<Capability>, i: nat): seq<Fetch>
    requires i < |caps|
  {
    Slice(trace, |Plan(caps[..i])|, |Endpoints(caps[i])|)
  }

  /** Some fetch failed with this reason. */
  ghost predicate FailedWith(fetches: seq<Fetch>, code: string) {
    exists k :: 0 <= k < |fetches| && fetches[k].result.Failure? && fetches[k].result.error.reasonCode == code
  }

  lemma FailedWithLast(fetches: seq<Fetch>, code: string)
    requires fetches != []
    ensures var last := fetches[|fetches| - 1].result;
            FailedWith(fetches, code) <==>
            FailedWith(fetches[..|fetches| - 1], code) || (last.Failure? && last.error.reasonCode == code)
  {
  }

  lemma {:induction false} IssuesAreFailures(fetches: seq<Fetch>)
    ensures Distinct(Issues(fetches))
    ensures forall code :: ConnectorIssue(code) in Issues(fetches) <==> FailedWith(fetches, code)
    ensures Issues(fetches) == [] <==> forall k :: 0 <= k < |fetches| ==> !fetches[k].result.Failure?
  {
    if fetches == [] {
    } else {
      var front := fetches[..|fetches| - 1];
      IssuesAreFailures(front);
      forall code ensures ConnectorIssue(code) in Issues(fetches) <==> FailedWith(fetches, code) {
        FailedWithLast(fetches, code);
        assert ConnectorIssue(code) in Issues(front) <==> FailedWith(front, code);
      }
      assert forall k :: 0 <= k < |front| ==> front[k] == fetches[k];
    }
  }

  /** The issues appear in order of first occurrence: more fetches only add issues at the end. */
  lemma {:induction false} IssuesInOrder(fetches: seq<Fetch>, k: nat)
    requires k <= |fetches|
    ensures Issues(fetches[..k]) <= Issues(fetches)
    decreases |fetches|
  {
    if k == |fetches| {
      assert fetches[..k] == fetches;
    } else {
      var front := fetches[..|fetches| - 1];
      IssuesInOrder(front, k);
      assert front[..k] == fetches[..k];
    }
  }

  ghost predicate AllConstructed(fetches: seq<Fetch>) {
    forall k :: 0 <= k < |fetches| ==> Constructed(fetches[k].result)
  }

  lemma {:induction false} IssueCodesAreKeys(fetches: seq<Fetch>)
    requires AllConstructed(fetches)
    ensures forall issue :: issue in Issues(fetches) ==> StableKey(issue.code)
  {
    if fetches == [] {
    } else {
      var front := fetches[..|fetches| - 1];
      assert forall k :: 0 <= k < |front| ==> front[k] == fetches[k];
      IssueCodesAreKeys(front);
    }
  }

  lemma {:induction false} SuccessesCount(fetches: seq<Fetch>)
    ensures Successes(fetches) > 0 <==> exists k :: 0 <= k < |fetches| && Kept(fetches[k].result)
  {
    if fetches == [] {
    } else {
      var front := fetches[..|fetches| - 1];
      SuccessesCount(front);
      assert forall k :: 0 <= k < |front| ==> front[k] == fetches[k];
    }
  }

  /** What the outcome of the i-th capability must say about the fetches that were made for it. */
  ghost predicate OutcomeExact(o: CapabilityOutcome, c: Capability, fetches: seq<Fetch>,
                               latch: Option<ConnectorIssue>) {
    && o.capability == c
    && (o.status == Succeeded <==> o.issues == [])
    && (o.status == OutcomeStatus.Unsupported <==> !Supported(c))
    && (!Supported(c) ==> o.issues == [ConnectorIssue("capability.unsupported")])
    && (Supported(c) && fetches == [] ==> o.status == Failed && latch.Some? && o.issues == [latch.value])
    && (Supported(c) && fetches != [] ==>
          && (o.status == Succeeded <==>
                |fetches| == |Endpoints(c)| && forall k :: 0 <= k < |fetches| ==> Kept(fetches[k].result))
          && (o.status == Partial <==>
                && (exists k :: 0 <= k < |fetches| && Kept(fetches[k].result))
                && (exists k :: 0 <= k < |fetches| && fetches[k].result.Failure?))
          && o.issues == Issues(fetches))
  }

  /** The latch is set by an authentication failure, which is the last fetch, and holds its reason. */
  lemma LatchIsAuthenticationFailure(caps: seq<Capability>, script: Script)
    ensures var p := CollectAll(caps, script);
            && (forall k :: 0 <= k < |p.trace| && p.trace[k].result.Failure?
                            && p.trace[k].result.error.kind == Authentication ==>
                  k == |p.trace| - 1 && p.latch == Some(ConnectorIssue(p.trace[k].result.error.reasonCode)))
            && (p.latch.Some? ==>
                  exists k :: 0 <= k < |p.trace| && p.trace[k].result.Failure?
                              && p.trace[k].result.error.kind == Authentication)
  {
    TraceIsPlanCut(caps, script);
    var p := CollectAll(caps, script);
    forall k | 0 <= k < |p.trace| && AuthFailure(p.trace[k].result) ensures k == |p.trace| - 1 {
      assert Stops(p.trace[k].result);
    }
  }

  /** Where a cut did not end in a crash, everything in it was kept or failed. */
  lemma NoCrash(fetches: seq<Fetch>)
    requires OnlyLastStops(fetches) && !EndsInCrash(fetches)
    ensures forall k :: 0 <= k < |fetches| ==> Kept(fetches[k].result) || fetches[k].result.Failure?
  {
  }

  lemma OwnOutcomeExact(c: Capability, script: Script, n: nat, latch: Option<ConnectorIssue>)
    requires Supported(c) && !EndsInCrash(Segment(Endpoints(c), script, n))
    ensures OutcomeExact(Outcome(c, Segment(Endpoints(c), script, n)), c, Segment(Endpoints(c), script, n), latch)
  {
    var fetches := Segment(Endpoints(c), script, n);
    SegmentIsCut(Endpoints(c), script, n);
    IssuesAreFailures(fetches);
    SuccessesCount(fetches);
    NoCrash(fetches);
  }

  lemma {:induction false} PlanGrows(caps: seq<Capability>, i: nat)
    requires i < |caps|
    ensures |Plan(caps[..i])| + |Endpoints(caps[i])| <= |Plan(caps)|
    decreases |caps|
  {
    var front := caps[..|caps| - 1];
    if i == |caps| - 1 {
    } else {
      PlanGrows(front, i);
      assert front[..i] == caps[..i];
    }
  }

  ghost predicate OutcomesExact(p: Progress, caps: seq<Capability>) {
    && |p.outcomes| == |caps|
    && forall i :: 0 <= i < |caps| ==> OutcomeExact(p.outcomes[i], caps[i], FetchesFor(p.trace, caps, i), p.latch)
  }

  /** What the fetches for an earlier capability were is not changed by the next one. */
  lemma EarlierFetchesStay(p: Progress, front: seq<Capability>, c: Capability, script: Script, i: nat)
    requires RunSoFar(p, front, script) && i < |front|
    ensures var p' := CollectOne(p, c, script);
            && |Plan(front[..i])| + |Endpoints(front[i])| <= |Plan(front)|
            && FetchesFor(p'.trace, front + [c], i) == FetchesFor(p.trace, front, i)
  {
    var start, length := |Plan(front[..i])|, |Endpoints(front[i])|;
    PlanGrows(front, i);
    assert (front + [c])[..i] == front[..i];
    if !p.crashed && Supported(c) && p.latch.None? {
      assert !EndsStopped(p.trace);
      SliceStays(p.trace, Segment(Endpoints(c), script, |p.trace|), start, length);
    }
  }

  lemma EarlierOutcomesStay(p: Progress, front: seq<Capability>, c: Capability, script: Script, i: nat)
    requires RunSoFar(p, front, script) && OutcomesExact(p, front) && i < |front|
    ensures var p' := CollectOne(p, c, script);
            OutcomeExact(p.outcomes[i], front[i], FetchesFor(p'.trace, front + [c], i), p'.latch)
  {
    var p' := CollectOne(p, c, script);
    EarlierFetchesStay(p, front, c, script, i);
    assert OutcomeExact(p.outcomes[i], front[i], FetchesFor(p.trace, front, i), p.latch);
    if p'.latch != p.latch {
      assert p.latch.None?;
    }
  }

  /** The fetches for the latest capability are its segment, or none when there is a latch. */
  lemma LastFetches(p: Progress, front: seq<Capability>, c: Capability, script: Script)
    requires RunSoFar(p, front, script) && !p.crashed
    ensures FetchesFor(CollectOne(p, c, script).trace, front + [c], |front|) ==
            if p.latch.None? then Segment(Endpoints(c), script, |p.trace|) else []
  {
    assert (front + [c])[..|front|] == front;
    if p.latch.None? {
      assert !EndsStopped(p.trace) && |p.trace| == |Plan(front)|;
      SegmentIsCut(Endpoints(c), script, |p.trace|);
      SliceOfTail(p.trace, Segment(Endpoints(c), script, |p.trace|), |Endpoints(c)|);
    }
  }

  lemma LastOutcomeExact(p: Progress, front: seq<Capability>, c: Capability, script: Script)
    requires RunSoFar(p, front, script) && !CollectOne(p, c, script).crashed
    ensures var p' := CollectOne(p, c, script);
            && |p'.outcomes| == |p.outcomes| + 1 && p'.outcomes[..|p.outcomes|] == p.outcomes
            && OutcomeExact(p'.outcomes[|p.outcomes|], c, FetchesFor(p'.trace, front + [c], |front|), p'.latch)
  {
    LastFetches(p, front, c, script);
    if Supported(c) && p.latch.None? {
      OwnOutcomeExact(c, script, |p.trace|, CollectOne(p, c, script).latch);
    }
  }

  lemma OneMoreOutcome(p: Progress, front: seq<Capability>, c: Capability, script: Script)
    requires p == CollectAll(front, script) && OutcomesExact(p, front) && !CollectOne(p, c, script).crashed
    ensures OutcomesExact(CollectOne(p, c, script), front + [c])
  {
    TraceIsPlanCut(front, script);
    var p', caps := CollectOne(p, c, script), front + [c];
    LastOutcomeExact(p, front, c, script);
    forall i | 0 <= i < |caps| ensures OutcomeExact(p'.outcomes[i], caps[i], FetchesFor(p'.trace, caps, i), p'.latch) {
      if i < |front| {
        EarlierOutcomesStay(p, front, c, script, i);
        assert p'.outcomes[i] == p'.outcomes[..|p.outcomes|][i];
      }
    }
  }

  /** One outcome for each requested capability, in order, each exact about the fetches made for it. */
  lemma {:induction false} OutcomesAreExact(caps: seq<Capability>, script: Script)
    requires !CollectAll(caps, script).crashed
    ensures OutcomesExact(CollectAll(caps, script), caps)
  {
    if caps == [] {
    } else {
      var front, c := caps[..|caps| - 1], caps[|caps| - 1];
      OutcomesAreExact(front, script);
      OneMoreOutcome(CollectAll(front, script), front, c, script);
      assert caps == front + [c];
    }
  }

  lemma UnsupportedIsKey()
    ensures StableKey(UNSUPPORTED.code)
  {
  }

  lemma TraceIsConstructed(trace: seq<Fetch>, planned: seq<KiteEndpoint>, script: Script)
    requires ConstructedScript(script) && Answers(trace, planned, script, 0)
    ensures AllConstructed(trace)
  {
  }

  /** The outcomes of a run pass their constructor, also those made before the run was aborted. */
  lemma {:induction false} OutcomesAreValid(caps: seq<Capability>, script: Script)
    requires ConstructedScript(script)
    ensures forall o :: o in CollectAll(caps, script).outcomes ==> ValidOutcome(o)
  {
    if caps == [] {
    } else {
      var front, c := caps[..|caps| - 1], caps[|caps| - 1];
      var p, p' := CollectAll(front, script), CollectAll(caps, script);
      OutcomesAreValid(front, script);
      TraceIsPlanCut(front, script);
      TraceIsConstructed(p.trace, Plan(front), script);
      if p'.outcomes != p.outcomes {
        UnsupportedIsKey();
        SegmentIsValid(c, script, |p.trace|);
        assert ValidOutcome(p'.outcomes[|p.outcomes|]);
      }
    }
  }

  lemma SegmentIsValid(c: Capability, script: Script, n: nat)
    requires ConstructedScript(script)
    ensures ValidOutcome(Outcome(c, Segment(Endpoints(c), script, n)))
  {
    var fetches := Segment(Endpoints(c), script, n);
    SegmentIsCut(Endpoints(c), script, n);
    IssuesAreFailures(fetches);
    IssueCodesAreKeys(fetches);
    forall i | 0 <= i < |Issues(fetches)| ensures StableKey(Issues(fetches)[i].code) {
      assert Issues(fetches)[i] in Issues(fetches);
    }
  }

  /** A run is aborted exactly when some fetch of it threw a foreign exception or brought a naive source time. */
  lemma AbortsOnTrace(caps: seq<Capability>, script: Script)
    ensures var p := CollectAll(caps, script);
            p.crashed <==> exists k :: 0 <= k < |p.trace| && Aborts(p.trace[k].result)
  {
    var p := CollectAll(caps, script);
    TraceIsPlanCut(caps, script);
    if k :| 0 <= k < |p.trace| && Aborts(p.trace[k].result) {
      assert Stops(p.trace[k].result);
      assert k == |p.trace| - 1;
    }
    if p.crashed {
      assert Aborts(p.trace[|p.trace| - 1].result);
    }
  }

  /** Of the planned endpoints, the k-th is the first whose answer stops the run. */
  ghost predicate FirstStop(planned: seq<KiteEndpoint>, script: Script, k: nat) {
    && k < |planned| && Stops(script(k, planned[k]))
    && forall j :: 0 <= j < k ==> !Stops(script(j, planned[j]))
  }

  lemma CutEndsAtFirstStop(fetches: seq<Fetch>, planned: seq<KiteEndpoint>, script: Script, k: nat)
    requires CutOf(fetches, planned, script, 0) && FirstStop(planned, script, k)
    ensures k == |fetches| - 1 && EndsStopped(fetches)
  {
    assert forall j :: 0 <= j < |fetches| ==> fetches[j].result == script(0 + j, planned[j]);
  }

  lemma LastIsFirstStop(fetches: seq<Fetch>, planned: seq<KiteEndpoint>, script: Script)
    requires CutOf(fetches, planned, script, 0) && EndsStopped(fetches)
    ensures FirstStop(planned, script, |fetches| - 1)
    ensures fetches[|fetches| - 1].result == script(|fetches| - 1, planned[|fetches| - 1])
  {
    assert forall j :: 0 <= j < |fetches| ==> fetches[j].result == script(0 + j, planned[j]);
  }

  /** Plan and script decide it: a run is aborted exactly when the first stopping answer is one that aborts. */
  lemma AbortsExactly(caps: seq<Capability>, script: Script)
    ensures CollectAll(caps, script).crashed <==>
            exists k: nat :: FirstStop(Plan(caps), script, k) && Aborts(script(k, Plan(caps)[k]))
  {
    var trace, planned := CollectAll(caps, script).trace, Plan(caps);
    TraceIsPlanCut(caps, script);
    if EndsStopped(trace) {
      LastIsFirstStop(trace, planned, script);
    }
    forall k: nat | FirstStop(planned, script, k) ensures EndsStopped(trace) && k == |trace| - 1 {
      CutEndsAtFirstStop(trace, planned, script, k);
    }
  }

  lemma OutcomesNameCapabilities(caps: seq<Capability>, script: Script)
    requires caps != [] && Distinct(caps) && !CollectAll(caps, script).crashed
    ensures var outcomes := CollectAll(caps, script).outcomes;
            && outcomes != []
            && forall i, j :: 0 <= i < j < |outcomes| ==> outcomes[i].capability != outcomes[j].capability
  {
    var outcomes := CollectAll(caps, script).outcomes;
    OutcomesAreExact(caps, script);
    assert forall i :: 0 <= i < |outcomes| ==> outcomes[i].capability == caps[i];
  }

  /**
   * No constructor of outcomes and issues ever refuses what a run hands it, and the one of artifacts refuses
   * nothing but a naive source time: exactly then, and after a foreign exception, there is no result.
   */
  lemma ResultIsValid(caps: seq<Capability>, script: Script, retrievedAt: int)
    requires caps != [] && Distinct(caps) && ConstructedScript(script)
    ensures var p := CollectAll(caps, script);
            && (forall o :: o in p.outcomes ==> ValidOutcome(o))
            && (forall k :: 0 <= k < |p.trace| && p.trace[k].result.Payload? ==>
                  (ValidArtifact(ArtifactOf(p.trace[k], retrievedAt)) <==> !Aborts(p.trace[k].result)))
            && ((exists k :: 0 <= k < |p.trace| && Aborts(p.trace[k].result)) <==> p.crashed)
            && (!p.crashed ==> ValidResult(CollectionResult(Artifacts(p.trace, retrievedAt), p.outcomes)))
  {
    var p := CollectAll(caps, script);
    OutcomesAreValid(caps, script);
    TraceIsPlanCut(caps, script);
    TraceIsConstructed(p.trace, Plan(caps), script);
    forall k | 0 <= k < |p.trace| && p.trace[k].result.Payload?
      ensures ValidArtifact(ArtifactOf(p.trace[k], retrievedAt)) <==> !Aborts(p.trace[k].result)
    {
      ArtifactRefusedExactly(p.trace[k], retrievedAt);
    }
    AbortsOnTrace(caps, script);
    ArtifactsAreValid(p.trace, retrievedAt);
    if !p.crashed {
      OutcomesNameCapabilities(caps, script);
    }
  }

  /** A transport that dates its payloads, except the holdings, without a zone. */
  const NAIVE_DATES: Script :=
    (n: nat, e: KiteEndpoint) => Payload([0], "text/csv", if e == HoldingsEndpoint then None else Some(Naive))

  lemma NaiveDatesConstructed()
    ensures ConstructedScript(NAIVE_DATES)
  {
    var mediaType := "text/csv";
    assert StripLeft(mediaType) == mediaType == StripRight(mediaType);
    assert Trimmed(mediaType);
  }

  lemma OneFetch(e: KiteEndpoint, script: Script, n: nat)
    ensures Segment([e], script, n) == [Fetch(e, script(n, e))]
  {
    assert [e][1..] == [];
  }

  lemma OneArtifact(kept: Fetch, lost: Fetch, retrievedAt: int)
    requires Kept(kept.result) && Aborts(lost.result)
    ensures |Artifacts([kept, lost], retrievedAt)| == 1
  {
    assert [kept, lost][..1] == [kept] && [kept][..0] == [];
    assert Artifacts([kept], retrievedAt) == [] + [ArtifactOf(kept, retrievedAt)];
  }

  /** After a run that can go on, a capability whose only fetch is refused ends it. */
  lemma SecondAborts(front: seq<Capability>, c: Capability, e: KiteEndpoint, script: Script)
    requires Endpoints(c) == [e]
    requires var p := CollectAll(front, script);
             p.latch.None? && !p.crashed && Aborts(script(|p.trace|, e))
    ensures var p, p' := CollectAll(front, script), CollectAll(front + [c], script);
            p'.crashed && p'.trace == p.trace + [Fetch(e, script(|p.trace|, e))]
  {
    var p := CollectAll(front, script);
    OneFetch(e, script, |p.trace|);
    assert (front + [c])[..|front|] == front;
  }

  lemma FirstKept(c: Capability, e: KiteEndpoint, script: Script)
    requires Endpoints(c) == [e] && Kept(script(0, e))
    ensures var p := Alone(c, script);
            p.latch.None? && !p.crashed && p.trace == [Fetch(e, script(0, e))]
  {
    OneFetch(e, script, 0);
    AloneIsOneStep(c, script);
  }

  /** Two capabilities with one endpoint each: the first payload is kept, and the refused second one loses it. */
  lemma SecondLosesFirst(a: Capability, b: Capability, e: KiteEndpoint, f: KiteEndpoint, script: Script,
                         retrievedAt: int)
    requires Endpoints(a) == [e] && Endpoints(b) == [f] && Kept(script(0, e)) && Aborts(script(1, f))
    ensures var p := CollectAll([a] + [b], script);
            p.crashed && |Artifacts(p.trace, retrievedAt)| == 1
  {
    FirstKept(a, e, script);
    SecondAborts([a], b, f, script);
    var kept, lost := Fetch(e, script(0, e)), Fetch(f, script(1, f));
    assert [kept] + [lost] == [kept, lost];
    OneArtifact(kept, lost, retrievedAt);
  }

  /** A payload that its own constructor accepts, and the artifact's does not, loses what was already fetched. */
  lemma NaiveSourceLosesRun(caps: seq<Capability>, retrievedAt: int)
    requires caps == [Holdings, Positions]
    ensures var p := CollectAll(caps, NAIVE_DATES);
            ConstructedScript(NAIVE_DATES) && p.crashed && |Artifacts(p.trace, retrievedAt)| == 1
  {
    NaiveDatesConstructed();
    SecondLosesFirst(caps[0], caps[1], HoldingsEndpoint, PositionsEndpoint, NAIVE_DATES, retrievedAt);
    assert [caps[0]] + [caps[1]] == caps;
  }

  lemma SchemaIsKey(e: KiteEndpoint)
    ensures StableKey(EndpointValue(e) + ".v1") && StableKey("zerodha.kite")
  {
  }

  /** Of the payloads that can be made, the artifact constructor refuses exactly those with a naive source time. */
  lemma ArtifactRefusedExactly(fetch: Fetch, retrievedAt: int)
    requires fetch.result.Payload? && Constructed(fetch.result)
    ensures ValidArtifact(ArtifactOf(fetch, retrievedAt)) <==> Kept(fetch.result)
  {
    SchemaIsKey(fetch.endpoint);
  }

  lemma {:induction false} ArtifactsAreValid(fetches: seq<Fetch>, retrievedAt: int)
    requires AllConstructed(fetches)
    ensures forall a :: a in Artifacts(fetches, retrievedAt) ==> ValidArtifact(a)
  {
    if fetches == [] {
    } else {
      var front := fetches[..|fetches| - 1];
      assert forall k :: 0 <= k < |front| ==> front[k] == fetches[k];
      ArtifactsAreValid(front, retrievedAt);
      SchemaIsKey(fetches[|fetches| - 1].endpoint);
    }
  }

  /** The artifact carries the answer of this fetch, unchanged. */
  ghost predicate Carries(a: RawArtifact, fetch: Fetch, retrievedAt: int) {
    && fetch.result.Payload?
    && a.payload == fetch.result.body && a.mediaType == fetch.result.mediaType
    && a.sourceAt == fetch.result.sourceAt && a.retrievedAt == retrievedAt
    && a.connectorKey == "zerodha.kite" && a.schemaVersion == EndpointValue(fetch.endpoint) + ".v1"
  }

  /** There is one artifact for each kept fetch, at the place that counts the kept fetches before it. */
  ghost predicate AllCarried(artifacts: seq<RawArtifact>, fetches: seq<Fetch>, retrievedAt: int) {
    && |artifacts| == Successes(fetches)
    && forall k :: 0 <= k < |fetches| && Kept(fetches[k].result) ==>
         && Successes(fetches[..k]) < |artifacts|
         && Carries(artifacts[Successes(fetches[..k])], fetches[k], retrievedAt)
  }

  lemma {:induction false} SuccessesIsCount(fetches: seq<Fetch>)
    ensures Successes(fetches) == |set k | 0 <= k < |fetches| && Kept(fetches[k].result)|
  {
    var kept := set k | 0 <= k < |fetches| && Kept(fetches[k].result);
    if fetches == [] {
      assert kept == {};
    } else {
      var n := |fetches| - 1;
      var front := fetches[..n];
      SuccessesIsCount(front);
      var before := set k | 0 <= k < |front| && Kept(front[k].result);
      assert kept == before + if Kept(fetches[n].result) then {n} else {};
    }
  }

  lemma {:induction false} ArtifactInPlace(fetches: seq<Fetch>, retrievedAt: int, k: nat)
    requires k < |fetches|
    ensures Artifacts(fetches, retrievedAt) ==
            Artifacts(fetches[..k], retrievedAt)
            + (if Kept(fetches[k].result) then [ArtifactOf(fetches[k], retrievedAt)] else [])
            + Artifacts(fetches[k + 1..], retrievedAt)
    decreases |fetches|
  {
    var n := |fetches| - 1;
    var front := fetches[..n];
    if k == n {
    } else {
      ArtifactInPlace(front, retrievedAt, k);
      assert front[..k] == fetches[..k];
      assert fetches[k + 1..][..n - k - 1] == front[k + 1..];
    }
  }

  /** The artifacts are exactly those of the kept fetches, in order, each with everything its fetch brought. */
  lemma ArtifactsAreTheSuccesses(fetches: seq<Fetch>, retrievedAt: int)
    ensures AllCarried(Artifacts(fetches, retrievedAt), fetches, retrievedAt)
  {
    ArtifactCount(fetches, retrievedAt);
    forall k | 0 <= k < |fetches| && Kept(fetches[k].result)
      ensures Successes(fetches[..k]) < |Artifacts(fetches, retrievedAt)|
      ensures Carries(Artifacts(fetches, retrievedAt)[Successes(fetches[..k])], fetches[k], retrievedAt)
    {
      ArtifactInPlace(fetches, retrievedAt, k);
      ArtifactCount(fetches[..k], retrievedAt);
    }
  }

  lemma {:induction false} ArtifactCount(fetches: seq<Fetch>, retrievedAt: int)
    ensures |Artifacts(fetches, retrievedAt)| == Successes(fetches)
  {
    if fetches == [] {
    } else {
      ArtifactCount(fetches[..|fetches| - 1], retrievedAt);
    }
  }

  // ---- A transport whose answers do not depend on the run ----

  ghost predicate Stateless(script: Script) {
    forall n, m, e :: script(n, e) == script(m, e)
  }

  lemma {:induction false} SegmentStateless(endpoints: seq<KiteEndpoint>, script: Script, n: nat, m: nat)
    requires Stateless(script)
    ensures Segment(endpoints, script, n) == Segment(endpoints, script, m)
  {
    if endpoints == [] {
    } else {
      SegmentStateless(endpoints[1..], script, n + 1, m + 1);
      assert script(n, endpoints[0]) == script(m, endpoints[0]);
    }
  }

  /** The outcome and the stop of a capability requested on its own. */
  function Alone(c: Capability, script: Script): Progress {
    CollectAll([c], script)
  }

  /** The first authentication failure that one of the capabilities hits on its own. */
  function FirstLatch(caps: seq<Capability>, script: Script): Option<ConnectorIssue> {
    if caps == [] then None
    else
      var earlier := FirstLatch(caps[..|caps| - 1], script);
      if earlier.Some? then earlier else Alone(caps[|caps| - 1], script).latch
  }

  /** What the i-th outcome is, from runs of single capabilities only. */
  ghost predicate Decomposed(p: Progress, caps: seq<Capability>, script: Script, i: nat)
    requires i < |caps| && |p.outcomes| == |caps|
  {
    var latched := FirstLatch(caps[..i], script);
    if Supported(caps[i]) && latched.Some? then
      p.outcomes[i] == CapabilityOutcome(caps[i], Failed, [latched.value])
    else
      !Alone(caps[i], script).crashed && Alone(caps[i], script).outcomes == [p.outcomes[i]]
  }

  lemma AloneIsOneStep(c: Capability, script: Script)
    ensures Alone(c, script) == CollectOne(Progress([], [], None, false), c, script)
  {
  }

  lemma {:induction false} FinishedRunDecomposes(caps: seq<Capability>, script: Script)
    requires Stateless(script) && !CollectAll(caps, script).crashed
    ensures var p := CollectAll(caps, script);
            && p.latch == FirstLatch(caps, script)
            && |p.outcomes| == |caps|
            && forall i :: 0 <= i < |caps| ==> Decomposed(p, caps, script, i)
  {
    if caps == [] {
    } else {
      var front, c := caps[..|caps| - 1], caps[|caps| - 1];
      var before, p := CollectAll(front, script), CollectAll(caps, script);
      FinishedRunDecomposes(front, script);
      AloneIsOneStep(c, script);
      SegmentStateless(Endpoints(c), script, |before.trace|, 0);
      forall i | 0 <= i < |caps| ensures Decomposed(p, caps, script, i) {
        if i < |front| {
          assert front[..i] == caps[..i] && Decomposed(before, front, script, i);
        }
      }
    }
  }

  /** The i-th capability would abort a run of its own, and no earlier one has an authentication failure. */
  ghost predicate AbortsAlone(caps: seq<Capability>, script: Script, i: nat) {
    i < |caps| && FirstLatch(caps[..i], script).None? && Alone(caps[i], script).crashed
  }

  lemma AbortOfOne(p: Progress, c: Capability, script: Script)
    requires Stateless(script)
    ensures CollectOne(p, c, script).crashed <==> p.crashed || (p.latch.None? && Alone(c, script).crashed)
  {
    AloneIsOneStep(c, script);
    SegmentStateless(Endpoints(c), script, |p.trace|, 0);
  }

  lemma AbortsAloneEarlier(front: seq<Capability>, c: Capability, script: Script, i: nat)
    requires i < |front|
    ensures AbortsAlone(front + [c], script, i) <==> AbortsAlone(front, script, i)
  {
    assert (front + [c])[..i] == front[..i];
  }

  lemma {:induction false} AbortDecomposes(caps: seq<Capability>, script: Script)
    requires Stateless(script)
    ensures CollectAll(caps, script).crashed <==> exists i: nat :: AbortsAlone(caps, script, i)
  {
    if caps == [] {
    } else {
      var front, c := caps[..|caps| - 1], caps[|caps| - 1];
      assert caps == front + [c] && caps[..|front|] == front;
      AbortDecomposes(front, script);
      AbortOfOne(CollectAll(front, script), c, script);
      forall i: nat | i < |front| ensures AbortsAlone(caps, script, i) <==> AbortsAlone(front, script, i) {
        AbortsAloneEarlier(front, c, script, i);
      }
      if CollectAll(front, script).crashed {
        var i: nat :| AbortsAlone(front, script, i);
        assert AbortsAlone(caps, script, i);
      } else {
        FinishedRunDecomposes(front, script);
        assert AbortsAlone(caps, script, |front|) <==> CollectAll(caps, script).crashed;
      }
    }
  }

  /** With a stateless transport, collecting a set is collecting each member alone, up to the first stop. */
  lemma CollectDecomposes(caps: seq<Capability>, script: Script)
    requires Stateless(script)
    ensures var p := CollectAll(caps, script);
            if exists i: nat :: AbortsAlone(caps, script, i) then p.crashed
            else
              && !p.crashed && p.latch == FirstLatch(caps, script)
              && |p.outcomes| == |caps|
              && forall i :: 0 <= i < |caps| ==> Decomposed(p, caps, script, i)
  {
    AbortDecomposes(caps, script);
    if !CollectAll(caps, script).crashed {
      FinishedRunDecomposes(caps, script);
    }
  }
}
