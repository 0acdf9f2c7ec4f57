/** Kite sessions: when the broker ends them, and what the transport makes of the clock. */
module KiteSessions {
  import opened Wrappers
  import opened KiteAuthorization
  import opened Connectors

  datatype Session = KiteSession(apiKey: string, accessToken: Option<string>, expiresAt: Option<int>)

  const MINUTE := 60 * SECOND
  const HOUR := 60 * MINUTE
  const DAY := 24 * HOUR
  const KOLKATA := 5 * HOUR + 30 * MINUTE

  /** Six in the morning of the next Kolkata day; instants count microseconds from a UTC midnight. */
  function SessionExpiry(observedAt: int): int {
    var localDate := (observedAt + KOLKATA) / DAY + 1;
    localDate * DAY + 6 * HOUR - KOLKATA
  }

  /** The expiry is the one instant at 00:30 UTC more than 6 and at most 30 hours ahead; all in microseconds. */
  lemma SessionExpiryExact(observedAt: int, e: int)
    ensures e == SessionExpiry(observedAt) <==>
            && e % 86_400_000_000 == 1_800_000_000
            && observedAt + 21_600_000_000 < e <= observedAt + 108_000_000_000
  {
  }

  lemma SessionExpiryMonotone(earlier: int, later: int)
    requires earlier <= later
    ensures SessionExpiry(earlier) <= SessionExpiry(later)
  {
  }

  lemma ReasonsAreKeys()
    ensures StableKey("session.missing") && StableKey("session.expired")
  {
  }

  function AuthenticationAt(session: Session, now: int): (a: AuthenticationState)
    ensures ValidAuthentication(a)
  {
    ReasonsAreKeys();
    if session.accessToken.None? then AuthenticationState(ActionRequired, Some("session.missing"), None)
    else if session.expiresAt.Some? && session.expiresAt.value <= now
    then AuthenticationState(Expired, Some("session.expired"), session.expiresAt)
    else AuthenticationState(Ready, None, session.expiresAt)
  }

  /** What every session is at every reading, with the reason for which it is not ready. */
  lemma AuthenticationDecided(session: Session, now: int)
    ensures var a := AuthenticationAt(session, now);
            && (a.status == Ready <==>
                  session.accessToken.Some? && (session.expiresAt.Some? ==> now < session.expiresAt.value))
            && (session.accessToken.None? <==> a.status == ActionRequired)
            && (a.status == Ready || a.status == ActionRequired || a.status == Expired)
            && a.reasonCode == (if a.status == Ready then None
                                else if a.status == ActionRequired then Some("session.missing")
                                else Some("session.expired"))
            && (session.accessToken.Some? ==> a.expiresAt == session.expiresAt)
  {
  }

  /** A session from an exchange is ready exactly before its expiry: for 6 hours at least, and 30 at most. */
  lemma SessionLifetime(session: Session, observedAt: int, now: int)
    requires session.accessToken.Some? && session.expiresAt == Some(SessionExpiry(observedAt))
    ensures AuthenticationAt(session, now).status == Ready <==> now < SessionExpiry(observedAt)
    ensures now <= observedAt + 21_600_000_000 ==> AuthenticationAt(session, now).status == Ready
    ensures now >= observedAt + 108_000_000_000 ==> AuthenticationAt(session, now).status == Expired
  {
  }
}
