/** The service object: each of its calls, run without interruption, is one schedule of the protocol. */
module AuthorizationService {
  import opened Wrappers
  import opened KiteAuthorization
  import opened AuthorizationProtocol
  import opened KiteSessions

  datatype AuthorizationStart = AuthorizationStart(loginUrl: string, expiresAt: int)

  datatype AuthorizationResult = AuthorizationResult(tenant: TenantId, connection: ConnectionId, session: Session)

  /** `InvalidCredential` and `NonceConflict` are value errors; the others are connector errors. */
  datatype AuthorizationError = InvalidCredential | StateInvalid | StateExpiredError | NonceConflict | ExchangeError

  function RowsOf(store: map<Digest, Row>): map<Digest, PendingAuthorization> {
    map d | d in store :: store[d].authorization
  }

  lemma RowsOfUpdate(store: map<Digest, Row>, key: Digest, row: Row)
    ensures RowsOf(store[key := row]) == RowsOf(store)[key := row.authorization]
    ensures RowsOf(store - {key}) == RowsOf(store) - {key}
  {
  }

  /** The protocol state after all calls so far, shared by every service object over the same table. */
  class History {
    ghost var run: State

    constructor (ghost run: State)
      ensures this.run == run
    {
      this.run := run;
    }
  }

  class KiteAuthorizationService {
    const store: NonceStore
    const history: History
    const digest: Sha256

    /** The table may hold pending records already, and other service objects may use it as well. */
    constructor (store: NonceStore, history: History, digest: Sha256)
      requires store.rows == RowsOf(history.run.store)
      ensures this.store == store && this.history == history && this.digest == digest && Valid()
    {
      this.store, this.history, this.digest := store, history, digest;
    }

    ghost predicate Valid()
      reads store, history
    {
      store.rows == RowsOf(history.run.store)
    }

    method Start(login: Login, now: int, ghost call: nat) returns (r: Result<AuthorizationStart, AuthorizationError>)
      requires Valid() && call !in history.run.calls && history.run.now <= now
      modifies history, store
      ensures Valid() && Execute(digest, old(history.run), StartSchedule(call, login, now)) == Some(history.run)
      ensures r.Ok? <==> && ValidCredential(login.apiKey) && ValidNonce(login.nonce)
                         && digest(login.nonce) !in old(store.rows)
      ensures r.Ok? ==>
                && store.rows == old(store.rows)[digest(login.nonce) :=
                     PendingAuthorization(login.tenant, login.connection, digest(login.nonce), now + 300_000_000)]
                && r.value.expiresAt == now + 300_000_000
                && r.value.loginUrl == LoginUrl(login.apiKey, login.nonce)
      ensures r.Err? ==>
                && store.rows == old(store.rows)
                && r.error == if !ValidCredential(login.apiKey) then InvalidCredential
                              else if !ValidNonce(login.nonce) then StateInvalid else NonceConflict
    {
      StartScheduleRuns(digest, history.run, call, login, now);
      ghost var after := Execute(digest, history.run, StartSchedule(call, login, now)).value;
      if !ValidCredential(login.apiKey) {
        history.run := after;
        return Err(InvalidCredential);
      }
      if !ValidNonce(login.nonce) {
        history.run := after;
        return Err(StateInvalid);
      }
      var authorization := AuthorizationFor(digest, login, now);
      RowsOfUpdate(history.run.store, digest(login.nonce), Row(authorization, |history.run.issues|));
      var stored := store.Issue(authorization);
      history.run := after;
      if !stored {
        return Err(NonceConflict);
      }
      return Ok(AuthorizationStart(LoginUrl(login.apiKey, login.nonce), authorization.expiresAt));
    }

    /** `exchanged` is what the token exchanger would answer, were it asked. */
    method Complete(state: string, token: string, now: int, exchanged: Option<Session>, ghost call: nat)
      returns (r: Result<AuthorizationResult, AuthorizationError>)
      requires Valid() && call !in history.run.calls && history.run.now <= now
      modifies history, store
      ensures Valid()
      ensures var schedule := CompleteSchedule(digest, old(history.run), call, state, token, now, exchanged.Some?);
              Execute(digest, old(history.run), schedule) == Some(history.run)
      ensures !ValidNonce(state) || !ValidCredential(token) ==>
                store.rows == old(store.rows) && r == Err(if ValidNonce(state) then InvalidCredential else StateInvalid)
      ensures ValidNonce(state) && ValidCredential(token) ==>
                && store.rows == old(store.rows) - {digest(state)}
                && r == if digest(state) !in old(store.rows) then Err(StateInvalid)
                        else
                          var a := old(store.rows)[digest(state)];
                          if a.expiresAt <= now then Err(StateExpiredError)
                          else if exchanged.None? then Err(ExchangeError)
                          else Ok(AuthorizationResult(a.tenant, a.connection, exchanged.value))
      ensures |history.run.exchanges| ==
              |old(history.run).exchanges| + if r.Ok? || r == Err(ExchangeError) then 1 else 0
    {
      CompleteScheduleRuns(digest, history.run, call, state, token, now, exchanged.Some?);
      ghost var schedule := CompleteSchedule(digest, history.run, call, state, token, now, exchanged.Some?);
      ghost var after := Execute(digest, history.run, schedule).value;
      if !ValidNonce(state) {
        history.run := after;
        return Err(StateInvalid);
      }
      if !ValidCredential(token) {
        history.run := after;
        return Err(InvalidCredential);
      }
      var found := store.Consume(digest(state));
      history.run := after;
      if found.None? {
        return Err(StateInvalid);
      }
      if found.value.expiresAt <= now {
        return Err(StateExpiredError);
      }
      if exchanged.None? {
        return Err(ExchangeError);
      }
      return Ok(AuthorizationResult(found.value.tenant, found.value.connection, exchanged.value));
    }
  }
}
