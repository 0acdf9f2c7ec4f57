/** The HTTP transport: bounded reading, the decision of one fetch, and collection against a session that runs out. */
module HttpTransport {
  import opened Wrappers
  import opened Connectors
  import opened Collection
  import opened KiteSessions

  /** The `content-length` header, as `int()` reads it; `Malformed` is whatever it refuses. */
  datatype Length = Absent | Malformed | Declared(value: int)

  /** What interrupts a transfer; `OtherError` is any error outside the two translated classes. */
  datatype Fault = TimedOut | NetworkError | OtherError

  /** How a body ends. */
  datatype Ending = Complete | Broken(fault: Fault)

  datatype Response = Response(status: int, length: Length, chunks: seq<Bytes>, ending: Ending,
                               contentType: Option<string>, retryAfter: Option<string> := None)

  /** What the server does with a GET: no response at all, or a response. */
  datatype Reply = NoResponse(fault: Fault) | Responded(response: Response)

  const DEFAULT_MAX_BYTES := 16 * 1024 * 1024
  const INSTRUMENTS_MAX_BYTES := 64 * 1024 * 1024

  function MaxBytes(endpoint: KiteEndpoint): nat {
    if endpoint.InstrumentsEndpoint? then INSTRUMENTS_MAX_BYTES else DEFAULT_MAX_BYTES
  }

  // Python 3.13 refuses to convert a longer decimal text to an integer.
  const MAX_INT_DIGITS := 4300
  const MAX_RETRY_AFTER := 86_400

  predicate Digit(c: char) {
    '0' <= c <= '9'
  }

  /** Both `isascii` and `isdecimal`. */
  predicate Decimal(s: string) {
    s != "" && forall i :: 0 <= i < |s| ==> Digit(s[i])
  }

  /** The number that decimal digits stand for. */
  function Number(s: string): nat
    requires s == "" || Decimal(s)
  {
    if s == "" then 0 else 10 * Number(s[..|s| - 1]) + (s[|s| - 1] as int - '0' as int)
  }

  /** The guard of the conversion that raises `ValueError`. */
  predicate Overlong(header: Option<string>) {
    header.Some? && Decimal(header.value) && |header.value| > MAX_INT_DIGITS
  }

  /** The delay in seconds that a `retry-after` header asks for; any other header is ignored. */
  function RetryAfter(header: Option<string>): (delay: Option<int>)
    requires !Overlong(header)
    ensures delay.Some? ==> 0 < delay.value <= MAX_RETRY_AFTER
  {
    if header.None? || !Decimal(header.value) then None
    else
      var seconds := Number(header.value);
      if seconds == 0 || seconds > MAX_RETRY_AFTER then None else Some(seconds)
  }

  /** The decimal digits of a number, without leading zeros. */
  function Digits(n: nat): (s: string)
    ensures Decimal(s)
  {
    if n < 10 then [('0' as int + n) as char] else Digits(n / 10) + [('0' as int + n % 10) as char]
  }

  predicate Zeros(s: string) {
    forall i :: 0 <= i < |s| ==> s[i] == '0'
  }

  lemma {:induction false} NumberOfZeros(zeros: string)
    requires Zeros(zeros)
    ensures Number(zeros) == 0
  {
    if zeros == "" {
    } else {
      NumberOfZeros(zeros[..|zeros| - 1]);
    }
  }

  lemma NumberAppend(s: string, c: char)
    requires (s == "" || Decimal(s)) && Digit(c)
    ensures Decimal(s + [c]) && Number(s + [c]) == 10 * Number(s) + (c as int - '0' as int)
  {
    assert (s + [c])[..|s|] == s;
  }

  lemma {:induction false} NumberOfDigits(zeros: string, n: nat)
    requires Zeros(zeros)
    ensures Decimal(zeros + Digits(n)) && Number(zeros + Digits(n)) == n
  {
    var last := ('0' as int + n % 10) as char;
    assert Digit(last) && last as int - '0' as int == n % 10;
    if n < 10 {
      NumberOfZeros(zeros);
      NumberAppend(zeros, last);
      assert Digits(n) == [last];
    } else {
      var front := zeros + Digits(n / 10);
      NumberOfDigits(zeros, n / 10);
      NumberAppend(front, last);
      assert Digits(n) == Digits(n / 10) + [last];
      assert zeros + Digits(n) == front + [last];
      assert n == 10 * (n / 10) + n % 10;
    }
  }

  /** The digits before the last are those of a tenth, so every decimal text is some zeros and a number. */
  lemma {:induction false} DecimalForm(s: string) returns (zeros: string)
    requires Decimal(s)
    ensures Zeros(zeros) && s == zeros + Digits(Number(s))
  {
    var front, last := s[..|s| - 1], s[|s| - 1];
    assert s == front + [last];
    if front == "" {
      zeros := "";
    } else {
      zeros := DecimalForm(front);
      if Number(front) == 0 {
        zeros := front;
        assert front == zeros;
      }
    }
  }

  /**
   * A decimal header, with or without leading zeros, that is short enough to be converted: a delay of up to a day
   * comes through as it was written, and no other number does. Every decimal header has this form.
   */
  lemma RetryAfterReadsBack(zeros: string, n: nat)
    requires Zeros(zeros)
    ensures var header := zeros + Digits(n);
            && (Overlong(Some(header)) <==> |header| > MAX_INT_DIGITS)
            && (!Overlong(Some(header)) ==>
                  RetryAfter(Some(header)) == if 1 <= n <= MAX_RETRY_AFTER then Some(n) else None)
  {
    NumberOfDigits(zeros, n);
  }

  /** Anything but a plain decimal number is ignored. */
  lemma RetryAfterIgnores(header: string)
    requires !Decimal(header)
    ensures !Overlong(Some(header)) && RetryAfter(Some(header)) == None
  {
  }

  /** What the status check lets through, as nothing, or raises. */
  function Refusal(response: Response): Option<Fetched> {
    var status := response.status;
    if 200 <= status < 300 then None
    else if status == 401 || status == 403 then Some(Failure(ConnectorError(Authentication, "session.expired")))
    else if status == 429 then
      Some(if Overlong(response.retryAfter) then Crash
           else Failure(ConnectorError(RateLimit, "provider.rate_limit", RetryAfter(response.retryAfter))))
    else if status == 400 then Some(Failure(ConnectorError(Validation, "provider.invalid_request")))
    else if status in {404, 405, 410} then Some(Failure(ConnectorError(Permanent, "provider.endpoint_unavailable")))
    else if 500 <= status < 600 then Some(Failure(ConnectorError(Transient, "provider.unavailable")))
    else Some(Failure(ConnectorError(Permission, "provider.request_denied")))
  }

  function Concat(chunks: seq<Bytes>): Bytes {
    if chunks == [] then [] else Concat(chunks[..|chunks| - 1]) + chunks[|chunks| - 1]
  }

  /** The number of bytes in all chunks together. */
  function Total(chunks: seq<Bytes>): nat {
    if chunks == [] then 0 else Total(chunks[..|chunks| - 1]) + |chunks[|chunks| - 1]|
  }

  lemma {:induction false} ConcatLength(chunks: seq<Bytes>)
    ensures |Concat(chunks)| == Total(chunks)
  {
    if chunks == [] {
    } else {
      ConcatLength(chunks[..|chunks| - 1]);
    }
  }

  /** The bytes come in the order of the chunks, and in the order they have within a chunk. */
  lemma {:induction false} ConcatInOrder(chunks: seq<Bytes>, i: nat, j: nat)
    requires i < |chunks| && j < |chunks[i]|
    ensures Total(chunks[..i]) + j < |Concat(chunks)|
    ensures Concat(chunks)[Total(chunks[..i]) + j] == chunks[i][j]
    decreases |chunks|
  {
    var front := chunks[..|chunks| - 1];
    ConcatLength(front);
    if i == |chunks| - 1 {
    } else {
      ConcatInOrder(front, i, j);
      assert front[..i] == chunks[..i];
    }
  }

  lemma {:induction false} ConcatAppend(a: seq<Bytes>, b: seq<Bytes>)
    ensures Concat(a + b) == Concat(a) + Concat(b)
    decreases |b|
  {
    if b == [] {
      assert a + b == a;
    } else {
      var front, last := b[..|b| - 1], b[|b| - 1];
      ConcatAppend(a, front);
      assert (a + b)[..|a + b| - 1] == a + front;
    }
  }

  lemma {:induction false} ConcatGrows(chunks: seq<Bytes>, i: nat)
    requires i <= |chunks|
    ensures |Concat(chunks[..i])| <= |Concat(chunks)|
    decreases |chunks|
  {
    if i == |chunks| {
      assert chunks[..i] == chunks;
    } else {
      ConcatGrows(chunks[..|chunks| - 1], i);
      assert chunks[..|chunks| - 1][..i] == chunks[..i];
    }
  }

  /** The error an interrupted transfer is translated to; none for an error that is passed through as it is. */
  function Interruption(fault: Fault): Option<ConnectorError> {
    match fault
    case TimedOut => Some(ConnectorError(Transient, "provider.timeout"))
    case NetworkError => Some(ConnectorError(Transient, "provider.network_error"))
    case OtherError => None
  }

  /** Reading a body either gives its bytes, or fails with a connector error, or passes another error through. */
  datatype Read = Body(bytes: Bytes) | Refused(error: ConnectorError) | PassedThrough

  predicate LengthAcceptable(length: Length, limit: nat) {
    length.Absent? || (length.Declared? && 0 <= length.value <= limit)
  }

  /** What bounded reading must come to: the size of the whole body decides, not how it was cut into chunks. */
  function ReadOutcome(response: Response, limit: nat): Read {
    if response.length.Malformed? then Refused(ConnectorError(Validation, "provider.invalid_content_length"))
    else if !LengthAcceptable(response.length, limit) || |Concat(response.chunks)| > limit
    then Refused(ConnectorError(Permanent, "provider.response_too_large"))
    else if response.ending.Complete? then Body(Concat(response.chunks))
    else match Interruption(response.ending.fault)
         case Some(error) => Refused(error)
         case None => PassedThrough
  }

  /** The same bytes cut in two ways, under the same header and ending, read the same. */
  lemma CutsReadTheSame(response: Response, a: seq<Bytes>, b: seq<Bytes>, limit: nat)
    requires Concat(a) == Concat(b)
    ensures ReadOutcome(response.(chunks := a), limit) == ReadOutcome(response.(chunks := b), limit)
    ensures ReadOutcome(response.(chunks := a), limit) == ReadOutcome(response.(chunks := [Concat(a)]), limit)
  {
    assert [Concat(a)][..0] == [];
    assert Concat([Concat(a)]) == Concat(a);
  }

  /** The j-th byte of the i-th chunk stands just after the earlier chunks and the j bytes before it. */
  ghost predicate InPlace(bytes: Bytes, chunks: seq<Bytes>, i: nat, j: nat)
    requires i < |chunks| && j < |chunks[i]|
  {
    var at := Total(chunks[..i]) + j;
    at < |bytes| && bytes[at] == chunks[i][j]
  }

  /** The bytes are what the server sent, byte for byte. */
  ghost predicate SentAs(bytes: Bytes, chunks: seq<Bytes>) {
    && |bytes| == Total(chunks)
    && forall i, j :: 0 <= i < |chunks| && 0 <= j < |chunks[i]| ==> InPlace(bytes, chunks, i, j)
  }

  lemma ConcatIsSent(chunks: seq<Bytes>)
    ensures SentAs(Concat(chunks), chunks)
  {
    ConcatLength(chunks);
    forall i, j | 0 <= i < |chunks| && 0 <= j < |chunks[i]| ensures InPlace(Concat(chunks), chunks, i, j) {
      ConcatInOrder(chunks, i, j);
    }
  }

  /** The streaming loop, which never keeps more than `limit` bytes. */
  method ReadBounded(response: Response, limit: nat) returns (r: Read)
    ensures r == ReadOutcome(response, limit)
    ensures r.Body? <==>
              && (response.length == Absent || (response.length.Declared? && 0 <= response.length.value <= limit))
              && Total(response.chunks) <= limit && response.ending == Complete
    ensures r.Body? ==> SentAs(r.bytes, response.chunks)
    ensures response.length == Malformed ==>
              r == Refused(ConnectorError(Validation, "provider.invalid_content_length"))
    ensures response.length != Malformed && (Total(response.chunks) > limit
                || (response.length.Declared? && !(0 <= response.length.value <= limit))) ==>
              r == Refused(ConnectorError(Permanent, "provider.response_too_large"))
  {
    ConcatIsSent(response.chunks);
    match response.length {
      case Absent =>
      case Malformed =>
        return Refused(ConnectorError(Validation, "provider.invalid_content_length"));
      case Declared(value) =>
        if value < 0 || value > limit {
          return Refused(ConnectorError(Permanent, "provider.response_too_large"));
        }
    }
    var kept: Bytes := [];
    var size := 0;
    for i := 0 to |response.chunks|
      invariant kept == Concat(response.chunks[..i]) && size == |kept| <= limit
    {
      assert response.chunks[..i + 1][..i] == response.chunks[..i];
      size := size + |response.chunks[i]|;
      if size > limit {
        ConcatGrows(response.chunks, i + 1);
        return Refused(ConnectorError(Permanent, "provider.response_too_large"));
      }
      kept := kept + response.chunks[i];
    }
    assert response.chunks[..|response.chunks|] == response.chunks;
    if response.ending.Complete? {
      return Body(kept);
    }
    match Interruption(response.ending.fault) {
      case Some(error) => return Refused(error);
      case None => return PassedThrough;
    }
  }

  predicate ReadyAt(session: Session, now: int) {
    AuthenticationAt(session, now).status.Ready?
  }

  function MediaType(response: Response): string {
    match response.contentType
    case Some(value) => value
    case None => "application/octet-stream"
  }

  /** The payload constructor raises `ValueError` for a media type that is blank or padded. */
  function PayloadOf(body: Bytes, mediaType: string): Fetched
    requires body != []
  {
    if Trimmed(mediaType) then Payload(body, mediaType) else Crash
  }

  function Received(endpoint: KiteEndpoint, response: Response): Fetched {
    var refused := Refusal(response);
    if refused.Some? then refused.value
    else match ReadOutcome(response, MaxBytes(endpoint))
         case Refused(error) => Failure(error)
         case PassedThrough => Crash
         case Body(bytes) =>
           if bytes == [] then Failure(ConnectorError(Validation, "provider.empty_response"))
           else PayloadOf(bytes, MediaType(response))
  }

  function Replied(endpoint: KiteEndpoint, reply: Reply): Fetched {
    match reply
    case Responded(response) => Received(endpoint, response)
    case NoResponse(fault) =>
      match Interruption(fault)
      case Some(error) => Failure(error)
      case None => Crash
  }

  /** One fetch: the session is looked at first, and only a ready one leads to a GET. */
  function FetchAt(session: Session, now: int, endpoint: KiteEndpoint, reply: Reply): Fetched {
    var authentication := AuthenticationAt(session, now);
    if !authentication.status.Ready? then Failure(ConnectorError(Authentication, authentication.reasonCode.value))
    else Replied(endpoint, reply)
  }

  datatype Get = Get(endpoint: KiteEndpoint, at: int)

  class HttpxKiteTransport {
    const session: Session
    var gets: seq<Get>

    constructor (session: Session)
      ensures this.session == session && gets == []
    {
      this.session := session;
      gets := [];
    }

    method Fetch(endpoint: KiteEndpoint, now: int, reply: Reply) returns (r: Fetched)
      modifies this
      ensures r == FetchAt(session, now, endpoint, reply)
      ensures gets == old(gets) + if ReadyAt(session, now) then [Get(endpoint, now)] else []
    {
      var authentication := AuthenticationAt(session, now);
      if !authentication.status.Ready? {
        return Failure(ConnectorError(Authentication, authentication.reasonCode.value));
      }
      gets := gets + [Get(endpoint, now)];
      match reply {
        case NoResponse(fault) =>
          match Interruption(fault) {
            case Some(error) => return Failure(error);
            case None => return Crash;
          }
        case Responded(response) =>
          var refused := Refusal(response);
          if refused.Some? {
            return refused.value;
          }
          var read := ReadBounded(response, MaxBytes(endpoint));
          match read {
            case Refused(error) => return Failure(error);
            case PassedThrough => return Crash;
            case Body(bytes) =>
              if bytes == [] {
                return Failure(ConnectorError(Validation, "provider.empty_response"));
              }
              return PayloadOf(bytes, MediaType(response));
          }
      }
    }
  }

  // ---- What a fetch answers, case by case ----

  lemma FaultsAreTranslated(session: Session, now: int, endpoint: KiteEndpoint)
    requires ReadyAt(session, now)
    ensures FetchAt(session, now, endpoint, NoResponse(TimedOut)) ==
            Failure(ConnectorError(Transient, "provider.timeout"))
    ensures FetchAt(session, now, endpoint, NoResponse(NetworkError)) ==
            Failure(ConnectorError(Transient, "provider.network_error"))
  {
  }

  /** Every status outside 2xx: the kind and the reason it stands for, and no delay but that of a rate limit. */
  lemma StatusDecides(session: Session, now: int, endpoint: KiteEndpoint, response: Response)
    requires ReadyAt(session, now) && !(200 <= response.status < 300)
    ensures var status, r := response.status, FetchAt(session, now, endpoint, Responded(response));
            && (status in {401, 403} ==> r == Failure(ConnectorError(Authentication, "session.expired", None)))
            && (status == 400 ==> r == Failure(ConnectorError(Validation, "provider.invalid_request", None)))
            && (status in {404, 405, 410} ==>
                  r == Failure(ConnectorError(Permanent, "provider.endpoint_unavailable", None)))
            && (500 <= status < 600 ==> r == Failure(ConnectorError(Transient, "provider.unavailable", None)))
            && (status == 429 && !Overlong(response.retryAfter) ==>
                  && r.Failure? && r.error.kind == RateLimit && r.error.reasonCode == "provider.rate_limit"
                  && (response.retryAfter.None? ==> r.error.retryAfter == None))
            && (status !in {400, 401, 403, 404, 405, 410, 429} && !(500 <= status < 600) ==>
                  r == Failure(ConnectorError(Permission, "provider.request_denied", None)))
  {
  }

  /** The delay of a rate limit reaches the error as the number that was written in the header, up to a day. */
  lemma RateLimitCarriesDelay(session: Session, now: int, endpoint: KiteEndpoint, response: Response,
                              zeros: string, n: nat)
    requires ReadyAt(session, now) && response.status == 429
    requires Zeros(zeros) && response.retryAfter == Some(zeros + Digits(n)) && |zeros + Digits(n)| <= 4300
    ensures FetchAt(session, now, endpoint, Responded(response)) ==
            Failure(ConnectorError(RateLimit, "provider.rate_limit", if 1 <= n <= 86400 then Some(n) else None))
  {
    RetryAfterReadsBack(zeros, n);
  }

  lemma TwelveSeconds(session: Session, now: int, endpoint: KiteEndpoint)
    requires ReadyAt(session, now)
    ensures FetchAt(session, now, endpoint, Responded(Response(429, Absent, [], Complete, None, Some("12")))) ==
            Failure(ConnectorError(RateLimit, "provider.rate_limit", Some(12)))
  {
    assert Digits(1) == "1" && Digits(12) == Digits(1) + "2";
    assert "" + Digits(12) == "12";
    RateLimitCarriesDelay(session, now, endpoint, Response(429, Absent, [], Complete, None, Some("12")), "", 12);
  }

  /** The most a body may hold: 64 MiB for the instruments, 16 MiB for everything else. */
  function Limit(endpoint: KiteEndpoint): nat {
    if endpoint == InstrumentsEndpoint then 67_108_864 else 16_777_216
  }

  /** A 2xx answer whose declared and real size fit. */
  ghost predicate Fits(endpoint: KiteEndpoint, response: Response) {
    && 200 <= response.status < 300
    && (response.length == Absent || (response.length.Declared? && 0 <= response.length.value <= Limit(endpoint)))
    && Total(response.chunks) <= Limit(endpoint)
  }

  /** A 2xx answer that does not fit, is interrupted, or is empty. */
  lemma BadBodiesFail(session: Session, now: int, endpoint: KiteEndpoint, response: Response)
    requires ReadyAt(session, now) && 200 <= response.status < 300
    ensures var r := FetchAt(session, now, endpoint, Responded(response));
            && (response.length == Malformed ==>
                  r == Failure(ConnectorError(Validation, "provider.invalid_content_length")))
            && (response.length != Malformed && !Fits(endpoint, response) ==>
                  r == Failure(ConnectorError(Permanent, "provider.response_too_large")))
            && (Fits(endpoint, response) && response.ending == Broken(TimedOut) ==>
                  r == Failure(ConnectorError(Transient, "provider.timeout")))
            && (Fits(endpoint, response) && response.ending == Broken(NetworkError) ==>
                  r == Failure(ConnectorError(Transient, "provider.network_error")))
            && (Fits(endpoint, response) && response.ending == Complete && Total(response.chunks) == 0 ==>
                  r == Failure(ConnectorError(Validation, "provider.empty_response")))
  {
    ConcatLength(response.chunks);
  }

  /** A full 2xx answer: the payload is what was sent, with the server's media type or the default one. */
  lemma GoodBodyIsPayload(session: Session, now: int, endpoint: KiteEndpoint, response: Response)
    requires ReadyAt(session, now) && Fits(endpoint, response) && response.ending == Complete
    requires Total(response.chunks) > 0
    requires response.contentType.Some? ==> Trimmed(response.contentType.value)
    ensures var r := FetchAt(session, now, endpoint, Responded(response));
            && r.Payload? && SentAs(r.body, response.chunks) && r.sourceAt == None
            && Some(r.mediaType) ==
               if response.contentType.Some? then response.contentType else Some("application/octet-stream")
  {
    ConcatIsSent(response.chunks);
    DefaultMediaType();
  }

  // ---- What escapes ----

  /** The guard of the failing constructor: a full answer whose `content-type` is present but blank or padded. */
  predicate BadMediaType(endpoint: KiteEndpoint, reply: Reply) {
    && reply.Responded? && 200 <= reply.response.status < 300
    && var read := ReadOutcome(reply.response, MaxBytes(endpoint));
       read.Body? && read.bytes != [] && reply.response.contentType.Some? && !Trimmed(reply.response.contentType.value)
  }

  /** An error outside the translated classes, before or during the transfer of an acceptable body. */
  predicate UntranslatedError(endpoint: KiteEndpoint, reply: Reply) {
    match reply
    case NoResponse(fault) => fault.OtherError?
    case Responded(response) =>
      && 200 <= response.status < 300
      && LengthAcceptable(response.length, MaxBytes(endpoint))
      && |Concat(response.chunks)| <= MaxBytes(endpoint)
      && response.ending == Broken(OtherError)
  }

  /** A rate limit whose delay is a decimal number that Python will not convert. */
  predicate OverlongDelay(reply: Reply) {
    reply.Responded? && reply.response.status == 429 && Overlong(reply.response.retryAfter)
  }

  /** The answers of a server that make a fetch raise something other than a connector error. */
  predicate Escapes(endpoint: KiteEndpoint, reply: Reply) {
    BadMediaType(endpoint, reply) || UntranslatedError(endpoint, reply) || OverlongDelay(reply)
  }

  lemma RefusalCrashes(response: Response)
    ensures var refused := Refusal(response);
            && (refused.None? <==> 200 <= response.status < 300)
            && (refused == Some(Crash) <==> response.status == 429 && Overlong(response.retryAfter))
            && (refused.Some? ==> !refused.value.Payload?)
  {
  }

  lemma ReadCrashes(response: Response, limit: nat)
    ensures ReadOutcome(response, limit).PassedThrough? <==>
            && LengthAcceptable(response.length, limit)
            && |Concat(response.chunks)| <= limit && response.ending == Broken(OtherError)
  {
  }

  lemma DefaultMediaType()
    ensures Trimmed("application/octet-stream")
  {
  }

  lemma PayloadCrashes(response: Response, bytes: Bytes)
    requires bytes != []
    ensures PayloadOf(bytes, MediaType(response)).Crash? <==>
            response.contentType.Some? && !Trimmed(response.contentType.value)
  {
    DefaultMediaType();
  }

  lemma ReceivedCrashes(endpoint: KiteEndpoint, response: Response)
    ensures Received(endpoint, response).Crash? <==> Escapes(endpoint, Responded(response))
  {
    RefusalCrashes(response);
    var read := ReadOutcome(response, MaxBytes(endpoint));
    ReadCrashes(response, MaxBytes(endpoint));
    if read.Body? && read.bytes != [] {
      PayloadCrashes(response, read.bytes);
    }
  }

  /** A fetch yields a payload or a connector error, as `collect` expects, except in exactly these three cases. */
  lemma FetchCrashesExactly(session: Session, now: int, endpoint: KiteEndpoint, reply: Reply)
    ensures FetchAt(session, now, endpoint, reply).Crash? <==>
            ReadyAt(session, now) && Escapes(endpoint, reply)
  {
    if reply.Responded? {
      ReceivedCrashes(endpoint, reply.response);
    }
  }

  /** A concrete answer that is no connector error: one byte with an empty `content-type`. */
  lemma BlankMediaTypeCrashes(now: int)
    ensures var reply := Responded(Response(200, Absent, [[0]], Complete, Some("")));
            FetchAt(KiteSession("key", Some("token"), None), now, HoldingsEndpoint, reply) == Crash
  {
  }

  /** Another: a rate limit with a delay of 5000 digits. */
  lemma OverlongDelayCrashes(now: int)
    ensures var delay := seq(5000, _ => '7');
            var reply := Responded(Response(429, Absent, [], Complete, None, Some(delay)));
            FetchAt(KiteSession("key", Some("token"), None), now, HoldingsEndpoint, reply) == Crash
  {
    var delay := seq(5000, _ => '7');
    assert Decimal(delay);
  }

  lemma TransferKeys()
    ensures StableKey("provider.timeout") && StableKey("provider.network_error")
  {
  }

  lemma SizeKeys()
    ensures StableKey("provider.invalid_content_length") && StableKey("provider.response_too_large")
  {
  }

  lemma EmptyKey()
    ensures StableKey("provider.empty_response") && StableKey("provider.request_denied")
  {
  }

  lemma RefusalKeys()
    ensures StableKey("session.expired") && StableKey("provider.rate_limit") && StableKey("provider.invalid_request")
  {
  }

  lemma AvailabilityKeys()
    ensures StableKey("provider.endpoint_unavailable") && StableKey("provider.unavailable")
  {
  }

  lemma RefusalIsConstructed(response: Response)
    ensures Refusal(response).Some? ==> Constructed(Refusal(response).value) && !Refusal(response).value.Payload?
  {
    RefusalKeys();
    AvailabilityKeys();
    EmptyKey();
  }

  lemma ReadIsConstructed(response: Response, limit: nat)
    ensures ReadOutcome(response, limit).Refused? ==> ValidError(ReadOutcome(response, limit).error)
  {
    SizeKeys();
    TransferKeys();
  }

  /** Every payload and error of a fetch passes the constructor of its value, and no payload is dated. */
  lemma FetchIsConstructed(session: Session, now: int, endpoint: KiteEndpoint, reply: Reply)
    ensures Constructed(FetchAt(session, now, endpoint, reply))
    ensures Aborts(FetchAt(session, now, endpoint, reply)) <==> FetchAt(session, now, endpoint, reply).Crash?
  {
    TransferKeys();
    EmptyKey();
    if reply.Responded? {
      RefusalIsConstructed(reply.response);
      ReadIsConstructed(reply.response, MaxBytes(endpoint));
    }
  }

  // ---- Collection against a session that runs out ----

  /** The transport script of a run: the n-th fetch sees the clock at `readings(n)`. */
  function HttpScript(session: Session, readings: nat -> int, replies: (nat, KiteEndpoint) -> Reply): Script {
    (n: nat, e: KiteEndpoint) => FetchAt(session, readings(n), e, replies(n, e))
  }

  /** Which fetches of a run sent a GET, and when. */
  function Gets(session: Session, readings: nat -> int, trace: seq<Collection.Fetch>): seq<Get> {
    if trace == [] then []
    else
      var n := |trace| - 1;
      Gets(session, readings, trace[..n]) +
      if ReadyAt(session, readings(n)) then [Get(trace[n].endpoint, readings(n))] else []
  }

  lemma HttpScriptIsConstructed(session: Session, readings: nat -> int, replies: (nat, KiteEndpoint) -> Reply)
    ensures ConstructedScript(HttpScript(session, readings, replies))
  {
    var script := HttpScript(session, readings, replies);
    forall n: nat, e ensures Constructed(script(n, e)) {
      FetchIsConstructed(session, readings(n), e, replies(n, e));
    }
  }
}
