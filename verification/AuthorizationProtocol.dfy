/**
 * Any number of concurrent `start` and `complete` calls over one nonce store, as a step system.
 * Each await is a place where another call may run, so every call carries a program counter.
 * `issue` and `consume` are single steps; the clock never goes back.
 */
module AuthorizationProtocol {
  import opened Wrappers
  import opened KiteAuthorization

  datatype Login = Login(tenant: TenantId, connection: ConnectionId, apiKey: string, nonce: string)

  /** Where a call stands, with what it has in hand. */
  datatype Call =
    | StartRejected
    | StartReady(login: Login)
    | StartStamped(login: Login, startedAt: int)
    | StartConflict
    | StartIssued(issue: nat)
    | CompleteRejected
    | CompleteReady(state: string, token: string)
    | StateUnknown
    | Consumed(state: string, token: string, authorization: PendingAuthorization, issue: nat)
    | StateExpired(issue: nat)
    | Checked(state: string, token: string, authorization: PendingAuthorization, issue: nat, checkedAt: int)
    | Exchanging(authorization: PendingAuthorization, issue: nat)
    | Completed(tenant: TenantId, connection: ConnectionId, issue: nat)
    | ExchangeFailed(issue: nat)

  /** History of the successful issues: the login that was started and the clock reading it was stamped with. */
  datatype Issue = Issue(login: Login, startedAt: int)

  /** History of the token exchanges that were begun. */
  datatype Exchange = Exchange(call: nat, issue: nat, state: string, token: string, checkedAt: int)

  /** A stored row together with the number of the issue that stored it. */
  datatype Row = Row(authorization: PendingAuthorization, issue: nat)

  datatype State = State(now: int, store: map<Digest, Row>, calls: map<nat, Call>,
                         issues: seq<Issue>, exchanges: seq<Exchange>)

  datatype Event =
    | Tick(to: int)
    | BeginStart(call: nat, login: Login)
    | ReadClock(call: nat)
    | IssueNonce(call: nat)
    | BeginComplete(call: nat, state: string, token: string)
    | ConsumeNonce(call: nat)
    | CheckExpiry(call: nat)
    | BeginExchange(call: nat)
    | EndExchange(call: nat, accepted: bool)

  type Sha256 = string -> Digest

  function Init(now: int): State {
    State(now, map[], map[], [], [])
  }

  function AuthorizationFor(digest: Sha256, login: Login, startedAt: int): PendingAuthorization {
    PendingAuthorization(login.tenant, login.connection, digest(login.nonce), startedAt + NONCE_TTL)
  }

  function Move(s: State, call: nat, to: Call): State {
    s.(calls := s.calls[call := to])
  }

  function DoIssue(digest: Sha256, s: State, call: nat, login: Login, startedAt: int): State {
    var authorization := AuthorizationFor(digest, login, startedAt);
    if authorization.nonceDigest in s.store then Move(s, call, StartConflict)
    else Move(s, call, StartIssued(|s.issues|)).(
         store := s.store[authorization.nonceDigest := Row(authorization, |s.issues|)],
         issues := s.issues + [Issue(login, startedAt)])
  }

  function DoConsume(digest: Sha256, s: State, call: nat, state: string, token: string): State {
    var key := digest(state);
    if key !in s.store then Move(s, call, StateUnknown)
    else
      var row := s.store[key];
      Move(s, call, Consumed(state, token, row.authorization, row.issue)).(store := s.store - {key})
  }

  /** The effect of an event, or nothing when no call is at the point where it could happen. */
  function Step(digest: Sha256, s: State, e: Event): Option<State> {
    match e
    case Tick(to) =>
      if to >= s.now then Some(s.(now := to)) else None
    case BeginStart(c, login) =>
      if c in s.calls then None
      else if ValidCredential(login.apiKey) && ValidNonce(login.nonce) then Some(Move(s, c, StartReady(login)))
      else Some(Move(s, c, StartRejected))
    case ReadClock(c) =>
      if c in s.calls && s.calls[c].StartReady? then Some(Move(s, c, StartStamped(s.calls[c].login, s.now))) else None
    case IssueNonce(c) =>
      if c in s.calls && s.calls[c].StartStamped?
      then Some(DoIssue(digest, s, c, s.calls[c].login, s.calls[c].startedAt)) else None
    case BeginComplete(c, state, token) =>
      if c in s.calls then None
      else if ValidNonce(state) && ValidCredential(token) then Some(Move(s, c, CompleteReady(state, token)))
      else Some(Move(s, c, CompleteRejected))
    case ConsumeNonce(c) =>
      if c in s.calls && s.calls[c].CompleteReady?
      then Some(DoConsume(digest, s, c, s.calls[c].state, s.calls[c].token)) else None
    case CheckExpiry(c) =>
      if c in s.calls && s.calls[c].Consumed? then
        var k := s.calls[c];
        if k.authorization.expiresAt <= s.now then Some(Move(s, c, StateExpired(k.issue)))
        else Some(Move(s, c, Checked(k.state, k.token, k.authorization, k.issue, s.now)))
      else None
    case BeginExchange(c) =>
      if c in s.calls && s.calls[c].Checked? then
        var k := s.calls[c];
        Some(Move(s, c, Exchanging(k.authorization, k.issue)).(
             exchanges := s.exchanges + [Exchange(c, k.issue, k.state, k.token, k.checkedAt)]))
      else None
    case EndExchange(c, accepted) =>
      if c in s.calls && s.calls[c].Exchanging? then
        var k := s.calls[c];
        Some(Move(s, c, if accepted then Completed(k.authorization.tenant, k.authorization.connection, k.issue)
                        else ExchangeFailed(k.issue)))
      else None
  }

  /** The state after a whole schedule, if every event of it could happen when it was due. */
  function Execute(digest: Sha256, s: State, events: seq<Event>): Option<State> {
    if events == [] then Some(s)
    else match Execute(digest, s, events[..|events| - 1])
         case None => None
         case Some(t) => Step(digest, t, events[|events| - 1])
  }

  /** The issue whose record a call has taken out of the store. */
  function Taken(k: Call): Option<nat> {
    if k.Consumed? || k.StateExpired? || k.Checked? || k.Exchanging? || k.Completed? || k.ExchangeFailed?
    then Some(k.issue)
    else None
  }

  /** The token exchange of the call has been begun. */
  predicate BeganExchange(k: Call) {
    k.Exchanging? || k.Completed? || k.ExchangeFailed?
  }

  datatype Place = Stored(key: Digest) | With(call: nat)

  predicate Holds(s: State, place: Place, issue: nat) {
    match place
    case Stored(key) => key in s.store && s.store[key].issue == issue
    case With(call) => call in s.calls && Taken(s.calls[call]) == Some(issue)
  }

  /** What a call has in hand agrees with the issue it took. */
  ghost predicate CallSound(digest: Sha256, now: int, issues: seq<Issue>, k: Call) {
    && (k.StartReady? || k.StartStamped? ==> ValidNonce(k.login.nonce))
    && (k.StartStamped? ==> k.startedAt <= now)
    && (k.CompleteReady? || k.Consumed? || k.Checked? ==> ValidNonce(k.state) && ValidCredential(k.token))
    && (Taken(k).Some? ==>
          && k.issue < |issues|
          && var i := issues[k.issue];
             && (k.Consumed? || k.Checked? || k.Exchanging? ==>
                   k.authorization == AuthorizationFor(digest, i.login, i.startedAt))
             && (k.Consumed? || k.Checked? ==> digest(k.state) == digest(i.login.nonce))
             && (k.Checked? ==> i.startedAt <= k.checkedAt < i.startedAt + NONCE_TTL)
             && (k.Completed? ==> k.tenant == i.login.tenant && k.connection == i.login.connection))
  }

  ghost predicate ExchangeSound(digest: Sha256, s: State, x: Exchange) {
    && x.call in s.calls && BeganExchange(s.calls[x.call])
    && Taken(s.calls[x.call]) == Some(x.issue)
    && x.issue < |s.issues|
    && ValidNonce(x.state) && ValidCredential(x.token)
    && digest(x.state) == digest(s.issues[x.issue].login.nonce)
    && s.issues[x.issue].startedAt <= x.checkedAt < s.issues[x.issue].startedAt + NONCE_TTL
  }

  ghost predicate PlacesSound(s: State, places: seq<Place>) {
    |places| == |s.issues| && forall i :: 0 <= i < |places| ==> Holds(s, places[i], i)
  }

  ghost predicate IssuesSound(s: State) {
    forall i :: 0 <= i < |s.issues| ==> s.issues[i].startedAt <= s.now && ValidNonce(s.issues[i].login.nonce)
  }

  ghost predicate RowSound(digest: Sha256, issues: seq<Issue>, places: seq<Place>, d: Digest, row: Row)
    requires |places| == |issues|
  {
    && row.issue < |issues| && places[row.issue] == Stored(d)
    && row.authorization == AuthorizationFor(digest, issues[row.issue].login, issues[row.issue].startedAt)
    && digest(issues[row.issue].login.nonce) == d
  }

  ghost predicate StoreSound(digest: Sha256, s: State, places: seq<Place>)
    requires |places| == |s.issues|
  {
    forall d :: d in s.store ==> RowSound(digest, s.issues, places, d, s.store[d])
  }

  ghost predicate CallsSound(digest: Sha256, s: State, places: seq<Place>)
    requires |places| == |s.issues|
  {
    forall c :: c in s.calls ==>
      && CallSound(digest, s.now, s.issues, s.calls[c])
      && (Taken(s.calls[c]).Some? ==> places[s.calls[c].issue] == With(c))
  }

  ghost predicate ExchangesSound(digest: Sha256, s: State) {
    && (forall k :: 0 <= k < |s.exchanges| ==> ExchangeSound(digest, s, s.exchanges[k]))
    && (forall j, k :: 0 <= j < k < |s.exchanges| ==> s.exchanges[j].call != s.exchanges[k].call)
  }

  /** The inductive invariant; `places` says where each issued record is. */
  ghost predicate Invariant(digest: Sha256, s: State, places: seq<Place>) {
    && PlacesSound(s, places) && IssuesSound(s) && StoreSound(digest, s, places)
    && CallsSound(digest, s, places) && ExchangesSound(digest, s)
  }

  /** Begun exchanges stay sound while their calls and the known issues do. */
  lemma ExchangesKept(digest: Sha256, s: State, s': State)
    requires ExchangesSound(digest, s) && s'.exchanges == s.exchanges && s.issues <= s'.issues
    requires forall c :: c in s.calls && BeganExchange(s.calls[c]) ==>
               c in s'.calls && Taken(s'.calls[c]) == Taken(s.calls[c]) && BeganExchange(s'.calls[c])
    ensures ExchangesSound(digest, s')
  {
  }

  /** A new issue at the end changes nothing for the calls. */
  lemma CallsKept(digest: Sha256, s: State, places: seq<Place>, issue: Issue, place: Place)
    requires |places| == |s.issues| && CallsSound(digest, s, places)
    ensures CallsSound(digest, s.(issues := s.issues + [issue]), places + [place])
  {
  }

  /** A new row under a fresh digest leaves every other record where it is. */
  lemma RowsKept(digest: Sha256, s: State, places: seq<Place>, login: Login, startedAt: int)
    requires PlacesSound(s, places) && StoreSound(digest, s, places) && digest(login.nonce) !in s.store
    ensures var key, n := digest(login.nonce), |s.issues|;
            var s' := s.(store := s.store[key := Row(AuthorizationFor(digest, login, startedAt), n)],
                         issues := s.issues + [Issue(login, startedAt)]);
            PlacesSound(s', places + [Stored(key)]) && StoreSound(digest, s', places + [Stored(key)])
  {
    var key, n := digest(login.nonce), |s.issues|;
    var s' := s.(store := s.store[key := Row(AuthorizationFor(digest, login, startedAt), n)],
                 issues := s.issues + [Issue(login, startedAt)]);
    var places' := places + [Stored(key)];
    forall i | 0 <= i < |places'| ensures Holds(s', places'[i], i) {
      assert i < n ==> Holds(s, places[i], i);
    }
    forall d | d in s'.store ensures RowSound(digest, s'.issues, places', d, s'.store[d]) {
      assert d != key ==> RowSound(digest, s.issues, places, d, s.store[d]);
    }
  }

  lemma IssueKeeps(digest: Sha256, s: State, places: seq<Place>, c: nat)
    requires Invariant(digest, s, places) && c in s.calls && s.calls[c].StartStamped?
    requires digest(s.calls[c].login.nonce) !in s.store
    ensures Invariant(digest, DoIssue(digest, s, c, s.calls[c].login, s.calls[c].startedAt),
                      places + [Stored(digest(s.calls[c].login.nonce))])
  {
    var k := s.calls[c];
    var key := digest(k.login.nonce);
    var places' := places + [Stored(key)];
    var s' := DoIssue(digest, s, c, k.login, k.startedAt);
    assert CallSound(digest, s.now, s.issues, k);
    RowsKept(digest, s, places, k.login, k.startedAt);
    CallsKept(digest, s, places, Issue(k.login, k.startedAt), Stored(key));
    assert CallsSound(digest, s', places');
    ExchangesKept(digest, s, s');
    assert PlacesSound(s', places') by {
      forall i | 0 <= i < |places'| ensures Holds(s', places'[i], i) {
        assert i < |places| ==> Holds(s, places[i], i);
      }
    }
  }

  lemma ConsumeKeeps(digest: Sha256, s: State, places: seq<Place>, c: nat)
    requires Invariant(digest, s, places) && c in s.calls && s.calls[c].CompleteReady?
    requires digest(s.calls[c].state) in s.store
    ensures var issue := s.store[digest(s.calls[c].state)].issue;
            && issue < |places|
            && Invariant(digest, DoConsume(digest, s, c, s.calls[c].state, s.calls[c].token), places[issue := With(c)])
  {
    var k := s.calls[c];
    var key := digest(k.state);
    assert RowSound(digest, s.issues, places, key, s.store[key]);
    var issue := s.store[key].issue;
    var places' := places[issue := With(c)];
    var s' := DoConsume(digest, s, c, k.state, k.token);
    assert CallSound(digest, s.now, s.issues, k);
    assert PlacesSound(s', places') by {
      forall i | 0 <= i < |places'| ensures Holds(s', places'[i], i) {
        assert Holds(s, places[i], i);
      }
    }
    forall d | d in s'.store ensures RowSound(digest, s'.issues, places', d, s'.store[d]) {
      assert RowSound(digest, s.issues, places, d, s.store[d]);
    }
    forall b | b in s'.calls
      ensures CallSound(digest, s'.now, s'.issues, s'.calls[b])
      ensures Taken(s'.calls[b]).Some? ==> places'[s'.calls[b].issue] == With(b)
    {
      assert b != c ==> CallSound(digest, s.now, s.issues, s.calls[b]);
    }
    ExchangesKept(digest, s, s');
  }

  /** A step that only moves one call, keeping whatever record it has taken. */
  lemma MoveKeeps(digest: Sha256, s: State, places: seq<Place>, c: nat, to: Call)
    requires Invariant(digest, s, places)
    requires CallSound(digest, s.now, s.issues, to)
    requires if c in s.calls then Taken(to) == Taken(s.calls[c]) else Taken(to) == None
    requires c in s.calls && s.calls[c].Exchanging? ==> to.Completed? || to.ExchangeFailed?
    requires c in s.calls ==> !s.calls[c].Completed? && !s.calls[c].ExchangeFailed?
    ensures Invariant(digest, Move(s, c, to), places)
  {
    var s' := Move(s, c, to);
    forall i | 0 <= i < |places| ensures Holds(s', places[i], i) {
      assert Holds(s, places[i], i);
    }
    ExchangesKept(digest, s, s');
  }

  lemma ExchangeKeeps(digest: Sha256, s: State, places: seq<Place>, c: nat)
    requires Invariant(digest, s, places) && c in s.calls && s.calls[c].Checked?
    ensures Invariant(digest, Step(digest, s, BeginExchange(c)).value, places)
  {
    var k := s.calls[c];
    assert CallSound(digest, s.now, s.issues, k);
    MoveKeeps(digest, s, places, c, Exchanging(k.authorization, k.issue));
    var moved := Move(s, c, Exchanging(k.authorization, k.issue));
    var s' := Step(digest, s, BeginExchange(c)).value;
    forall i | 0 <= i < |places| ensures Holds(s', places[i], i) {
      assert Holds(moved, places[i], i);
    }
    forall j | 0 <= j < |s'.exchanges| ensures ExchangeSound(digest, s', s'.exchanges[j]) {
      if j < |s.exchanges| {
        assert ExchangeSound(digest, moved, moved.exchanges[j]);
      }
    }
    forall j | 0 <= j < |s.exchanges| ensures s.exchanges[j].call != c {
      assert ExchangeSound(digest, s, s.exchanges[j]);
    }
  }

  lemma TickKeeps(digest: Sha256, s: State, places: seq<Place>, to: int)
    requires Invariant(digest, s, places) && to >= s.now
    ensures Invariant(digest, s.(now := to), places)
  {
  }

  lemma BeginKeeps(digest: Sha256, s: State, places: seq<Place>, e: Event)
    requires e.BeginStart? || e.BeginComplete? || e.ReadClock?
    requires Invariant(digest, s, places) && Step(digest, s, e).Some?
    ensures Invariant(digest, Step(digest, s, e).value, places)
  {
    assert e.ReadClock? ==> CallSound(digest, s.now, s.issues, s.calls[e.call]);
    MoveKeeps(digest, s, places, e.call, Step(digest, s, e).value.calls[e.call]);
  }

  lemma DecideKeeps(digest: Sha256, s: State, places: seq<Place>, e: Event)
    requires e.CheckExpiry? || e.EndExchange?
    requires Invariant(digest, s, places) && Step(digest, s, e).Some?
    ensures Invariant(digest, Step(digest, s, e).value, places)
  {
    assert CallSound(digest, s.now, s.issues, s.calls[e.call]);
    MoveKeeps(digest, s, places, e.call, Step(digest, s, e).value.calls[e.call]);
  }

  lemma IssueStepKeeps(digest: Sha256, s: State, places: seq<Place>, c: nat) returns (places': seq<Place>)
    requires Invariant(digest, s, places) && c in s.calls && s.calls[c].StartStamped?
    ensures Invariant(digest, DoIssue(digest, s, c, s.calls[c].login, s.calls[c].startedAt), places')
  {
    var key := digest(s.calls[c].login.nonce);
    if key in s.store {
      MoveKeeps(digest, s, places, c, StartConflict);
      places' := places;
    } else {
      IssueKeeps(digest, s, places, c);
      places' := places + [Stored(key)];
    }
  }

  lemma ConsumeStepKeeps(digest: Sha256, s: State, places: seq<Place>, c: nat) returns (places': seq<Place>)
    requires Invariant(digest, s, places) && c in s.calls && s.calls[c].CompleteReady?
    ensures Invariant(digest, DoConsume(digest, s, c, s.calls[c].state, s.calls[c].token), places')
  {
    var key := digest(s.calls[c].state);
    if key in s.store {
      ConsumeKeeps(digest, s, places, c);
      places' := places[s.store[key].issue := With(c)];
    } else {
      MoveKeeps(digest, s, places, c, StateUnknown);
      places' := places;
    }
  }

  /** Every step of the protocol keeps the invariant. */
  lemma StepKeeps(digest: Sha256, s: State, places: seq<Place>, e: Event) returns (places': seq<Place>)
    requires Invariant(digest, s, places) && Step(digest, s, e).Some?
    ensures Invariant(digest, Step(digest, s, e).value, places')
  {
    places' := places;
    match e {
      case Tick(to) => TickKeeps(digest, s, places, to);
      case IssueNonce(c) => places' := IssueStepKeeps(digest, s, places, c);
      case ConsumeNonce(c) => places' := ConsumeStepKeeps(digest, s, places, c);
      case BeginExchange(c) => ExchangeKeeps(digest, s, places, c);
      case CheckExpiry(_) => DecideKeeps(digest, s, places, e);
      case EndExchange(_, _) => DecideKeeps(digest, s, places, e);
      case _ => BeginKeeps(digest, s, places, e);
    }
  }

  lemma {:induction false} RunKeeps(digest: Sha256, now: int, events: seq<Event>) returns (places: seq<Place>)
    requires Execute(digest, Init(now), events).Some?
    ensures Invariant(digest, Execute(digest, Init(now), events).value, places)
  {
    if events == [] {
      places := [];
    } else {
      var before := events[..|events| - 1];
      places := RunKeeps(digest, now, before);
      places := StepKeeps(digest, Execute(digest, Init(now), before).value, places, events[|events| - 1]);
    }
  }

  ghost predicate Recorded(exchanges: seq<Exchange>, c: nat) {
    exists k :: 0 <= k < |exchanges| && exchanges[k].call == c
  }

  /** Every exchange that was begun is in the history. */
  ghost predicate AllRecorded(s: State) {
    forall c :: c in s.calls && BeganExchange(s.calls[c]) ==> Recorded(s.exchanges, c)
  }

  lemma StepRecords(digest: Sha256, s: State, e: Event)
    requires AllRecorded(s) && Step(digest, s, e).Some?
    ensures AllRecorded(Step(digest, s, e).value)
  {
    var s' := Step(digest, s, e).value;
    forall c | c in s'.calls && BeganExchange(s'.calls[c]) ensures Recorded(s'.exchanges, c) {
      if e == BeginExchange(c) {
        assert s'.exchanges[|s.exchanges|].call == c;
      } else {
        assert Recorded(s.exchanges, c);
        var k :| 0 <= k < |s.exchanges| && s.exchanges[k].call == c;
        assert s'.exchanges[k].call == c;
      }
    }
  }

  lemma {:induction false} RunRecords(digest: Sha256, now: int, events: seq<Event>)
    requires Execute(digest, Init(now), events).Some?
    ensures AllRecorded(Execute(digest, Init(now), events).value)
  {
    if events == [] {
    } else {
      var before := events[..|events| - 1];
      RunRecords(digest, now, before);
      StepRecords(digest, Execute(digest, Init(now), before).value, events[|events| - 1]);
    }
  }

  /** Some exchange in the history is for this issue. */
  ghost predicate HandedOver(s: State, issue: nat) {
    exists k :: 0 <= k < |s.exchanges| && s.exchanges[k].issue == issue
  }

  /** The exchanges in the history are for exactly the records held by calls that began one. */
  lemma HandedOverExactly(digest: Sha256, now: int, events: seq<Event>, issue: nat)
    requires Execute(digest, Init(now), events).Some?
    ensures var s := Execute(digest, Init(now), events).value;
            HandedOver(s, issue) <==> exists c :: Holds(s, With(c), issue) && BeganExchange(s.calls[c])
  {
    var s := Execute(digest, Init(now), events).value;
    var places := RunKeeps(digest, now, events);
    RunRecords(digest, now, events);
    if HandedOver(s, issue) {
      var k :| 0 <= k < |s.exchanges| && s.exchanges[k].issue == issue;
      assert ExchangeSound(digest, s, s.exchanges[k]);
      assert Holds(s, With(s.exchanges[k].call), issue);
    }
    if c :| Holds(s, With(c), issue) && BeganExchange(s.calls[c]) {
      assert Recorded(s.exchanges, c);
      var k :| 0 <= k < |s.exchanges| && s.exchanges[k].call == c;
      assert ExchangeSound(digest, s, s.exchanges[k]);
    }
  }

  ghost predicate UniquelyPlaced(s: State, issue: nat) {
    exists p :: Holds(s, p, issue) && forall q :: Holds(s, q, issue) ==> q == p
  }

  /** Conservation: in every reachable state each issued record is in exactly one place, and nothing else is. */
  lemma EachIssueInOnePlace(digest: Sha256, now: int, events: seq<Event>)
    requires Execute(digest, Init(now), events).Some?
    ensures var s := Execute(digest, Init(now), events).value;
            && (forall i :: 0 <= i < |s.issues| ==> UniquelyPlaced(s, i))
            && (forall p: Place, i: nat :: Holds(s, p, i) ==> i < |s.issues|)
  {
    var s := Execute(digest, Init(now), events).value;
    var places := RunKeeps(digest, now, events);
    forall p: Place, i: nat | Holds(s, p, i) ensures i < |s.issues| && p == places[i] {
      if p.With? {
        assert CallSound(digest, s.now, s.issues, s.calls[p.call]);
      } else {
        assert RowSound(digest, s.issues, places, p.key, s.store[p.key]);
      }
    }
    forall i | 0 <= i < |s.issues| ensures UniquelyPlaced(s, i) {
      assert Holds(s, places[i], i);
    }
  }

  /**
   * Safety over every schedule: exchanges map injectively to issues, each was allowed by a reading taken
   * at or after its `start` and before five minutes had passed, and its result names that `start`'s owner.
   */
  lemma ExchangesAreSingleUse(digest: Sha256, now: int, events: seq<Event>)
    requires Execute(digest, Init(now), events).Some?
    ensures var s := Execute(digest, Init(now), events).value;
            && (forall j, k :: 0 <= j < k < |s.exchanges| ==> s.exchanges[j].issue != s.exchanges[k].issue)
            && (forall k :: 0 <= k < |s.exchanges| ==>
                  var x := s.exchanges[k];
                  && x.issue < |s.issues|
                  && s.issues[x.issue].startedAt <= x.checkedAt < s.issues[x.issue].startedAt + 300_000_000
                  && digest(x.state) == digest(s.issues[x.issue].login.nonce))
            && (forall c :: c in s.calls && s.calls[c].Completed? ==>
                  && s.calls[c].issue < |s.issues|
                  && s.calls[c].tenant == s.issues[s.calls[c].issue].login.tenant
                  && s.calls[c].connection == s.issues[s.calls[c].issue].login.connection)
  {
    var s := Execute(digest, Init(now), events).value;
    var places := RunKeeps(digest, now, events);
    forall k | 0 <= k < |s.exchanges|
      ensures ExchangeSound(digest, s, s.exchanges[k])
      ensures places[s.exchanges[k].issue] == With(s.exchanges[k].call)
    {
      assert ExchangeSound(digest, s, s.exchanges[k]);
    }
    forall c | c in s.calls && s.calls[c].Completed?
      ensures s.calls[c].issue < |s.issues|
      ensures s.calls[c].tenant == s.issues[s.calls[c].issue].login.tenant
      ensures s.calls[c].connection == s.issues[s.calls[c].issue].login.connection
    {
      assert CallSound(digest, s.now, s.issues, s.calls[c]);
    }
  }

  ghost predicate CallTraced(c: nat, k: Call, events: seq<Event>) {
    && (k.StartReady? || k.StartStamped? ==> BeginStart(c, k.login) in events)
    && (k.CompleteReady? || k.Consumed? || k.Checked? ==> BeginComplete(c, k.state, k.token) in events)
  }

  ghost predicate LoginTraced(login: Login, events: seq<Event>) {
    exists c :: BeginStart(c, login) in events
  }

  /** Every issue goes back to a begun `start`, and every exchange to a begun `complete`. */
  ghost predicate Traced(s: State, events: seq<Event>) {
    && (forall c :: c in s.calls ==> CallTraced(c, s.calls[c], events))
    && (forall i :: 0 <= i < |s.issues| ==> LoginTraced(s.issues[i].login, events))
    && (forall k :: 0 <= k < |s.exchanges| ==>
          BeginComplete(s.exchanges[k].call, s.exchanges[k].state, s.exchanges[k].token) in events)
  }

  lemma TracedLonger(s: State, before: seq<Event>, events: seq<Event>)
    requires Traced(s, before) && before <= events
    ensures Traced(s, events)
  {
  }

  lemma StepIsTraced(digest: Sha256, s: State, e: Event, events: seq<Event>)
    requires Traced(s, events) && e in events && Step(digest, s, e).Some?
    ensures Traced(Step(digest, s, e).value, events)
  {
    var s' := Step(digest, s, e).value;
    if !e.Tick? {
      assert e.call in s.calls ==> CallTraced(e.call, s.calls[e.call], events);
      assert CallTraced(e.call, s'.calls[e.call], events);
      forall c | c in s'.calls ensures CallTraced(c, s'.calls[c], events) {
        assert c != e.call ==> s'.calls[c] == s.calls[c];
      }
      if e.IssueNonce? {
        assert BeginStart(e.call, s.calls[e.call].login) in events;
        assert LoginTraced(s.calls[e.call].login, events);
      }
    }
  }

  lemma {:induction false} RunIsTraced(digest: Sha256, now: int, events: seq<Event>)
    requires Execute(digest, Init(now), events).Some?
    ensures Traced(Execute(digest, Init(now), events).value, events)
  {
    if events == [] {
    } else {
      var before := events[..|events| - 1];
      var s := Execute(digest, Init(now), before).value;
      RunIsTraced(digest, now, before);
      TracedLonger(s, before, events);
      StepIsTraced(digest, s, events[|events| - 1], events);
    }
  }

  /** The strings whose digests a schedule has computed: nonces of starts and states of completions. */
  ghost predicate Presented(text: string, events: seq<Event>) {
    || (exists c, login :: BeginStart(c, login) in events && login.nonce == text)
    || (exists c, token :: BeginComplete(c, text, token) in events)
  }

  /** With no digest collision among the strings of the run, only the very nonce of a `start` reaches an exchange. */
  lemma OnlyTheIssuedNonceExchanges(digest: Sha256, now: int, events: seq<Event>, k: nat)
    requires Execute(digest, Init(now), events).Some?
    requires forall a, b :: Presented(a, events) && Presented(b, events) && digest(a) == digest(b) ==> a == b
    requires k < |Execute(digest, Init(now), events).value.exchanges|
    ensures var x := Execute(digest, Init(now), events).value.exchanges[k];
            && BeginComplete(x.call, x.state, x.token) in events
            && exists c, login :: BeginStart(c, login) in events && login.nonce == x.state
  {
    ExchangesAreSingleUse(digest, now, events);
    RunIsTraced(digest, now, events);
    var s := Execute(digest, Init(now), events).value;
    var login := s.issues[s.exchanges[k].issue].login;
    assert LoginTraced(login, events);
    var c :| BeginStart(c, login) in events;
    var x := s.exchanges[k];
    assert BeginComplete(x.call, x.state, x.token) in events;
    assert Presented(login.nonce, events) && Presented(x.state, events);
  }

  /** The events a call itself can still take part in. */
  predicate Concerns(e: Event, c: nat) {
    !e.Tick? && e.call == c
  }

  /** A malformed state or request token: the store is untouched and the call can do nothing more. */
  lemma MalformedCompletionTouchesNothing(digest: Sha256, s: State, c: nat, state: string, token: string)
    requires c !in s.calls && (!ValidNonce(state) || !ValidCredential(token))
    ensures var s' := Step(digest, s, BeginComplete(c, state, token));
            && s'.Some? && s'.value.store == s.store && s'.value.exchanges == s.exchanges
            && forall e :: Concerns(e, c) ==> Step(digest, s'.value, e) == None
  {
  }

  /** A malformed key or nonce: nothing is stored, and the call can do nothing more. */
  lemma MalformedStartTouchesNothing(digest: Sha256, s: State, c: nat, login: Login)
    requires c !in s.calls && (!ValidNonce(login.nonce) || !ValidCredential(login.apiKey))
    ensures var s' := Step(digest, s, BeginStart(c, login));
            && s'.Some? && s'.value.store == s.store && s'.value.issues == s.issues
            && forall e :: Concerns(e, c) ==> Step(digest, s'.value, e) == None
  {
  }

  /** Any other completion: right after its consume step the digest is gone, and no other row has changed. */
  lemma ConsumeRemovesTheDigest(digest: Sha256, s: State, c: nat)
    requires Step(digest, s, ConsumeNonce(c)).Some?
    ensures var s' := Step(digest, s, ConsumeNonce(c)).value;
            var key := digest(s.calls[c].state);
            && s'.store == s.store - {key}
            && s'.calls[c].Consumed? == (key in s.store)
            && (s'.calls[c].Consumed? ==> s'.calls[c].authorization == s.store[key].authorization)
            && (key !in s.store ==>
                  s'.calls[c].StateUnknown? && forall e :: Concerns(e, c) ==> Step(digest, s', e) == None)
  {
  }

  lemma {:induction false} ExecuteAppend(digest: Sha256, s: State, first: seq<Event>, second: seq<Event>)
    requires Execute(digest, s, first).Some?
    ensures Execute(digest, s, first + second) == Execute(digest, Execute(digest, s, first).value, second)
    decreases |second|
  {
    if second == [] {
      assert first + second == first;
    } else {
      var front := second[..|second| - 1];
      ExecuteAppend(digest, s, first, front);
      assert (first + second)[..|first + second| - 1] == first + front;
    }
  }

  function StartEvents(c: nat, login: Login): seq<Event> {
    [BeginStart(c, login), ReadClock(c), IssueNonce(c)]
  }

  function CompleteEvents(c: nat, state: string, token: string, accepted: bool): seq<Event> {
    [BeginComplete(c, state, token), ConsumeNonce(c), CheckExpiry(c), BeginExchange(c), EndExchange(c, accepted)]
  }

  function Then(digest: Sha256, s: Option<State>, e: Event): Option<State> {
    if s.None? then None else Step(digest, s.value, e)
  }

  lemma ExecuteThree(digest: Sha256, s: State, a: Event, b: Event, c: Event)
    ensures Execute(digest, s, [a, b, c]) == Then(digest, Then(digest, Step(digest, s, a), b), c)
  {
    assert [a, b, c][..2] == [a, b] && [a, b][..1] == [a] && [a][..0] == [];
    assert Execute(digest, s, [a]) == Step(digest, s, a);
    assert Execute(digest, s, [a, b]) == Then(digest, Step(digest, s, a), b);
  }

  lemma StartRuns(digest: Sha256, s: State, c: nat, login: Login)
    requires c !in s.calls && ValidCredential(login.apiKey) && ValidNonce(login.nonce)
    requires digest(login.nonce) !in s.store
    ensures Execute(digest, s, StartEvents(c, login)) ==
            Some(State(s.now,
                       s.store[digest(login.nonce) := Row(AuthorizationFor(digest, login, s.now), |s.issues|)],
                       s.calls[c := StartIssued(|s.issues|)],
                       s.issues + [Issue(login, s.now)],
                       s.exchanges))
  {
    ExecuteThree(digest, s, BeginStart(c, login), ReadClock(c), IssueNonce(c));
    assert s.calls[c := StartReady(login)][c := StartStamped(login, s.now)] == s.calls[c := StartStamped(login, s.now)];
    assert s.calls[c := StartStamped(login, s.now)][c := StartIssued(|s.issues|)] ==
           s.calls[c := StartIssued(|s.issues|)];
  }

  lemma CompleteChecks(digest: Sha256, s: State, c: nat, state: string, token: string, accepted: bool)
    requires c !in s.calls && ValidNonce(state) && ValidCredential(token) && digest(state) in s.store
    ensures var row := s.store[digest(state)];
            Execute(digest, s, CompleteEvents(c, state, token, accepted)[..3]) ==
            Some(s.(store := s.store - {digest(state)},
                    calls := s.calls[c := if row.authorization.expiresAt <= s.now then StateExpired(row.issue)
                                          else Checked(state, token, row.authorization, row.issue, s.now)]))
  {
    var row := s.store[digest(state)];
    assert CompleteEvents(c, state, token, accepted)[..3] ==
           [BeginComplete(c, state, token), ConsumeNonce(c), CheckExpiry(c)];
    ExecuteThree(digest, s, BeginComplete(c, state, token), ConsumeNonce(c), CheckExpiry(c));
    var ready, consumed := CompleteReady(state, token), Consumed(state, token, row.authorization, row.issue);
    var expired, checked := StateExpired(row.issue), Checked(state, token, row.authorization, row.issue, s.now);
    assert s.calls[c := ready][c := consumed] == s.calls[c := consumed];
    assert s.calls[c := consumed][c := expired] == s.calls[c := expired];
    assert s.calls[c := consumed][c := checked] == s.calls[c := checked];
  }

  lemma CompleteRuns(digest: Sha256, s: State, c: nat, state: string, token: string, accepted: bool)
    requires c !in s.calls && ValidNonce(state) && ValidCredential(token) && digest(state) in s.store
    ensures var row, end := s.store[digest(state)], Execute(digest, s, CompleteEvents(c, state, token, accepted));
            && (s.now < row.authorization.expiresAt <==> end.Some?)
            && (end.Some? ==>
                  && c in end.value.calls
                  && end.value.calls[c] ==
                       (if accepted
                        then Completed(row.authorization.tenant, row.authorization.connection, row.issue)
                        else ExchangeFailed(row.issue))
                  && end.value.store == s.store - {digest(state)}
                  && end.value.exchanges == s.exchanges + [Exchange(c, row.issue, state, token, s.now)])
  {
    var events := CompleteEvents(c, state, token, accepted);
    CompleteChecks(digest, s, c, state, token, accepted);
    var checked := Execute(digest, s, events[..3]);
    assert events[..4][..3] == events[..3] && events[..5] == events;
    assert Execute(digest, s, events[..4]) == Step(digest, checked.value, BeginExchange(c));
  }

  lemma SingleEvent(digest: Sha256, s: State, e: Event)
    ensures Execute(digest, s, [e]) == Step(digest, s, e)
  {
  }

  /** Letting time pass first only changes the clock the other events see. */
  lemma Ticked(digest: Sha256, s: State, now: int, events: seq<Event>)
    requires s.now <= now
    ensures Execute(digest, s, [Tick(now)] + events) == Execute(digest, s.(now := now), events)
  {
    SingleEvent(digest, s, Tick(now));
    ExecuteAppend(digest, s, [Tick(now)], events);
  }

  lemma UnknownStateRuns(digest: Sha256, s: State, c: nat, state: string, token: string)
    requires c !in s.calls && ValidNonce(state) && ValidCredential(token) && digest(state) !in s.store
    ensures var end := Execute(digest, s, [BeginComplete(c, state, token), ConsumeNonce(c)]);
            end.Some? && end.value.store == s.store && end.value.exchanges == s.exchanges
  {
    var two := [BeginComplete(c, state, token), ConsumeNonce(c)];
    assert two[..1] == [BeginComplete(c, state, token)];
    SingleEvent(digest, s, BeginComplete(c, state, token));
  }

  /** The schedule of one undisturbed `start` at a given reading of the clock. */
  function StartSchedule(c: nat, login: Login, now: int): seq<Event> {
    if ValidCredential(login.apiKey) && ValidNonce(login.nonce) then [Tick(now)] + StartEvents(c, login)
    else [BeginStart(c, login)]
  }

  lemma StartScheduleRuns(digest: Sha256, s: State, c: nat, login: Login, now: int)
    requires c !in s.calls && s.now <= now
    ensures var end, key := Execute(digest, s, StartSchedule(c, login, now)), digest(login.nonce);
            && end.Some? && end.value.exchanges == s.exchanges
            && end.value.store == if ValidCredential(login.apiKey) && ValidNonce(login.nonce) && key !in s.store
                                  then s.store[key := Row(AuthorizationFor(digest, login, now), |s.issues|)]
                                  else s.store
  {
    SingleEvent(digest, s, BeginStart(c, login));
    if ValidCredential(login.apiKey) && ValidNonce(login.nonce) {
      Ticked(digest, s, now, StartEvents(c, login));
      if digest(login.nonce) !in s.store {
        StartRuns(digest, s.(now := now), c, login);
      } else {
        ExecuteThree(digest, s.(now := now), BeginStart(c, login), ReadClock(c), IssueNonce(c));
      }
    }
  }

  /** The schedule of one undisturbed `complete`, as far as it gets. */
  function CompleteSchedule(digest: Sha256, s: State, c: nat, state: string, token: string, now: int, accepted: bool)
    : seq<Event>
  {
    if !ValidNonce(state) || !ValidCredential(token) then [BeginComplete(c, state, token)]
    else
      [Tick(now)] +
      if digest(state) !in s.store then [BeginComplete(c, state, token), ConsumeNonce(c)]
      else if s.store[digest(state)].authorization.expiresAt <= now then CompleteEvents(c, state, token, accepted)[..3]
      else CompleteEvents(c, state, token, accepted)
  }

  lemma CompleteScheduleRuns(digest: Sha256, s: State, c: nat, state: string, token: string, now: int, accepted: bool)
    requires c !in s.calls && s.now <= now
    ensures var end := Execute(digest, s, CompleteSchedule(digest, s, c, state, token, now, accepted));
            var valid := ValidNonce(state) && ValidCredential(token);
            && end.Some?
            && end.value.store == (if valid then s.store - {digest(state)} else s.store)
            && end.value.exchanges ==
               if valid && digest(state) in s.store && now < s.store[digest(state)].authorization.expiresAt
               then s.exchanges + [Exchange(c, s.store[digest(state)].issue, state, token, now)] else s.exchanges
  {
    SingleEvent(digest, s, BeginComplete(c, state, token));
    if ValidNonce(state) && ValidCredential(token) {
      var t := s.(now := now);
      if digest(state) !in s.store {
        Ticked(digest, s, now, [BeginComplete(c, state, token), ConsumeNonce(c)]);
        UnknownStateRuns(digest, t, c, state, token);
      } else if s.store[digest(state)].authorization.expiresAt <= now {
        Ticked(digest, s, now, CompleteEvents(c, state, token, accepted)[..3]);
        CompleteChecks(digest, t, c, state, token, accepted);
      } else {
        Ticked(digest, s, now, CompleteEvents(c, state, token, accepted));
        CompleteRuns(digest, t, c, state, token, accepted);
      }
    }
  }

  /** Completeness: an undisturbed login is exchanged, for its own owner, just when it returns within five minutes. */
  lemma PromptLoginCompletes(digest: Sha256, s: State, c1: nat, c2: nat, login: Login, token: string, to: int)
    requires c1 !in s.calls && c2 !in s.calls && c1 != c2
    requires ValidCredential(login.apiKey) && ValidNonce(login.nonce) && ValidCredential(token)
    requires digest(login.nonce) !in s.store && s.now <= to
    ensures var end :=
              Execute(digest, s, StartEvents(c1, login) + [Tick(to)] + CompleteEvents(c2, login.nonce, token, true));
            && (to < s.now + 300_000_000 <==> end.Some?)
            && (end.Some? ==>
                  && c2 in end.value.calls
                  && end.value.calls[c2] == Completed(login.tenant, login.connection, |s.issues|)
                  && end.value.store == s.store
                  && end.value.exchanges == s.exchanges + [Exchange(c2, |s.issues|, login.nonce, token, to)])
  {
    var start, key := StartEvents(c1, login), digest(login.nonce);
    StartRuns(digest, s, c1, login);
    var s1 := Execute(digest, s, start).value;
    var s2 := s1.(now := to);
    ExecuteAppend(digest, s, start, [Tick(to)]);
    SingleEvent(digest, s1, Tick(to));
    ExecuteAppend(digest, s, start + [Tick(to)], CompleteEvents(c2, login.nonce, token, true));
    CompleteRuns(digest, s2, c2, login.nonce, token, true);
    assert s2.store - {key} == s.store;
  }

  // ---- A login among any other calls ----

  /** No completion other than `except` is about to consume this digest. */
  ghost predicate Unclaimed(digest: Sha256, s: State, key: Digest, except: Option<nat>) {
    forall c :: c in s.calls && s.calls[c].CompleteReady? && digest(s.calls[c].state) == key ==> Some(c) == except
  }

  /** The event does not begin a completion with a state of this digest. */
  predicate Avoids(digest: Sha256, e: Event, key: Digest) {
    e.BeginComplete? ==> digest(e.state) != key
  }

  ghost predicate AllAvoid(digest: Sha256, events: seq<Event>, key: Digest) {
    forall e :: e in events ==> Avoids(digest, e, key)
  }

  lemma RecordStaysOneStep(digest: Sha256, s: State, e: Event, key: Digest)
    requires key in s.store && Unclaimed(digest, s, key, None) && Avoids(digest, e, key)
    requires Step(digest, s, e).Some?
    ensures var t := Step(digest, s, e).value;
            key in t.store && t.store[key] == s.store[key] && Unclaimed(digest, t, key, None)
  {
  }

  /** An issued record leaves the store only through a completion whose state has the same digest. */
  lemma {:induction false} RecordStays(digest: Sha256, s: State, events: seq<Event>, key: Digest)
    requires key in s.store && Unclaimed(digest, s, key, None) && AllAvoid(digest, events, key)
    requires Execute(digest, s, events).Some?
    ensures var t := Execute(digest, s, events).value;
            key in t.store && t.store[key] == s.store[key] && Unclaimed(digest, t, key, None)
  {
    if events == [] {
    } else {
      var front := events[..|events| - 1];
      RecordStays(digest, s, front, key);
      RecordStaysOneStep(digest, Execute(digest, s, front).value, events[|events| - 1], key);
    }
  }

  /** The call is a completion that has taken the record, or can still take it; only time can refuse it. */
  ghost predicate OnTrack(digest: Sha256, s: State, c: nat, key: Digest, row: Row) {
    && c in s.calls && Unclaimed(digest, s, key, Some(c))
    && var k := s.calls[c];
       if k.CompleteReady? then digest(k.state) == key && key in s.store && s.store[key] == row
       else
         && Taken(k) == Some(row.issue)
         && (k.Consumed? || k.Checked? || k.Exchanging? ==> k.authorization == row.authorization)
         && (k.StateExpired? ==> row.authorization.expiresAt <= s.now)
         && (k.Completed? ==> k.tenant == row.authorization.tenant && k.connection == row.authorization.connection)
  }

  /** A step of another call leaves the completion where it is, and its record in the store. */
  lemma OtherStepKeepsTrack(digest: Sha256, s: State, e: Event, c: nat, key: Digest, row: Row)
    requires OnTrack(digest, s, c, key, row) && Avoids(digest, e, key) && !Concerns(e, c)
    requires Step(digest, s, e).Some?
    ensures OnTrack(digest, Step(digest, s, e).value, c, key, row)
  {
    var t := Step(digest, s, e).value;
    assert t.calls[c] == s.calls[c];
    if s.calls[c].CompleteReady? && !e.Tick? && e.ConsumeNonce? {
      assert digest(s.calls[e.call].state) != key;
    }
  }

  /** A step of the completion itself takes it on: the record is there when it comes to consume it. */
  lemma OwnStepKeepsTrack(digest: Sha256, s: State, e: Event, c: nat, key: Digest, row: Row)
    requires OnTrack(digest, s, c, key, row) && Concerns(e, c)
    requires Step(digest, s, e).Some?
    ensures OnTrack(digest, Step(digest, s, e).value, c, key, row)
  {
  }

  lemma StaysOnTrackOneStep(digest: Sha256, s: State, e: Event, c: nat, key: Digest, row: Row)
    requires OnTrack(digest, s, c, key, row) && Avoids(digest, e, key)
    requires Step(digest, s, e).Some?
    ensures OnTrack(digest, Step(digest, s, e).value, c, key, row)
  {
    if Concerns(e, c) {
      OwnStepKeepsTrack(digest, s, e, c, key, row);
    } else {
      OtherStepKeepsTrack(digest, s, e, c, key, row);
    }
  }

  lemma {:induction false} StaysOnTrack(digest: Sha256, s: State, events: seq<Event>, c: nat, key: Digest, row: Row)
    requires OnTrack(digest, s, c, key, row) && AllAvoid(digest, events, key)
    requires Execute(digest, s, events).Some?
    ensures OnTrack(digest, Execute(digest, s, events).value, c, key, row)
  {
    if events == [] {
    } else {
      var front := events[..|events| - 1];
      StaysOnTrack(digest, s, front, c, key, row);
      StaysOnTrackOneStep(digest, Execute(digest, s, front).value, events[|events| - 1], c, key, row);
    }
  }

  /** What a completion still has to do, up to a successful exchange. */
  function Remaining(c: nat, k: Call): seq<Event> {
    match k
    case CompleteReady(_, _) => [ConsumeNonce(c)] + [CheckExpiry(c)] + [BeginExchange(c)] + [EndExchange(c, true)]
    case Consumed(_, _, _, _) => [CheckExpiry(c)] + [BeginExchange(c)] + [EndExchange(c, true)]
    case Checked(_, _, _, _, _) => [BeginExchange(c)] + [EndExchange(c, true)]
    case Exchanging(_, _) => [EndExchange(c, true)]
    case _ => []
  }

  lemma ExecuteFirst(digest: Sha256, s: State, e: Event, rest: seq<Event>)
    requires Step(digest, s, e).Some?
    ensures Execute(digest, s, [e] + rest) == Execute(digest, Step(digest, s, e).value, rest)
  {
    SingleEvent(digest, s, e);
    ExecuteAppend(digest, s, [e], rest);
  }

  /** How many events the call is away from its end. */
  function Distance(k: Call): nat {
    if k.CompleteReady? then 4 else if k.Consumed? then 3 else if k.Checked? then 2 else if k.Exchanging? then 1 else 0
  }

  /** In time, or checked already, a completion that is on track only has to be allowed to go on. */
  lemma {:induction false} OnTrackCompletes(digest: Sha256, s: State, c: nat, key: Digest, row: Row)
    requires OnTrack(digest, s, c, key, row) && !s.calls[c].ExchangeFailed?
    requires s.calls[c].CompleteReady? || s.calls[c].Consumed? || s.calls[c].StateExpired? ==>
               s.now < row.authorization.expiresAt
    ensures var end := Execute(digest, s, Remaining(c, s.calls[c]));
            && end.Some? && c in end.value.calls
            && end.value.calls[c] == Completed(row.authorization.tenant, row.authorization.connection, row.issue)
    decreases Distance(s.calls[c])
  {
    var k := s.calls[c];
    if k.Completed? {
    } else {
      var events := Remaining(c, k);
      var e, t := events[0], Step(digest, s, events[0]).value;
      StaysOnTrackOneStep(digest, s, e, c, key, row);
      assert events == [e] + Remaining(c, t.calls[c]);
      ExecuteFirst(digest, s, e, Remaining(c, t.calls[c]));
      OnTrackCompletes(digest, t, c, key, row);
    }
  }

  /**
   * Completeness among any other calls. The completion that presents an issued nonce, when no other one presents
   * its digest, never loses the record: it can at any later moment before the deadline be carried through to the
   * exchange for its own owner, and it is refused as expired only at or after the deadline.
   */
  lemma PromptLoginCompletesAmongOthers(digest: Sha256, now: int, before: seq<Event>, c: nat, state: string,
                                        token: string, after: seq<Event>)
    requires ValidNonce(state) && ValidCredential(token)
    requires Execute(digest, Init(now), before).Some?
    requires var s := Execute(digest, Init(now), before).value;
             && c !in s.calls && digest(state) in s.store && Unclaimed(digest, s, digest(state), None)
    requires Execute(digest, Init(now), before + [BeginComplete(c, state, token)] + after).Some?
    requires AllAvoid(digest, after, digest(state))
    ensures var s := Execute(digest, Init(now), before).value;
            var t := Execute(digest, Init(now), before + [BeginComplete(c, state, token)] + after).value;
            var issue := s.store[digest(state)].issue;
            && c in t.calls && issue < |s.issues|
            && var Issue(login, startedAt) := s.issues[issue];
               var end := Execute(digest, t, Remaining(c, t.calls[c]));
               && !t.calls[c].StateUnknown?
               && (t.calls[c].CompleteReady? ==> digest(state) in t.store && t.store[digest(state)].issue == issue)
               && (t.calls[c].StateExpired? ==> startedAt + 300_000_000 <= t.now)
               && (t.now < startedAt + 300_000_000 && !t.calls[c].ExchangeFailed? ==>
                     && end.Some? && c in end.value.calls
                     && end.value.calls[c] == Completed(login.tenant, login.connection, issue))
  {
    var s, key, begin := Execute(digest, Init(now), before).value, digest(state), BeginComplete(c, state, token);
    var row := s.store[key];
    var places := RunKeeps(digest, now, before);
    assert RowSound(digest, s.issues, places, key, row);
    SingleEvent(digest, s, begin);
    ExecuteAppend(digest, Init(now), before, [begin]);
    ExecuteAppend(digest, Init(now), before + [begin], after);
    var ready := Step(digest, s, begin).value;
    StaysOnTrack(digest, ready, after, c, key, row);
    var t := Execute(digest, ready, after).value;
    if t.now < row.authorization.expiresAt && !t.calls[c].ExchangeFailed? {
      OnTrackCompletes(digest, t, c, key, row);
    }
  }
}
