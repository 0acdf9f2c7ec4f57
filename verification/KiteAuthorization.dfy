/** Values of the interactive Kite login: accepted credentials and nonces, pending records, the login URL. */
module KiteAuthorization {
  import opened Wrappers
  import opened Strings
  import opened FormEncoding

  datatype TenantId = TenantId(value: nat)
  datatype ConnectionId = ConnectionId(value: nat)

  // Instants are UTC microseconds.
  const SECOND := 1_000_000
  const NONCE_TTL := 5 * 60 * SECOND
  const LOGIN_URL := "https://kite.zerodha.com/connect/login"

  predicate LowerHex(c: char) {
    '0' <= c <= '9' || 'a' <= c <= 'f'
  }

  /** A lowercase hexadecimal SHA-256 digest; the constructor of the pending record insists on this shape. */
  type Digest = d: string | |d| == 64 && forall i :: 0 <= i < |d| ==> LowerHex(d[i])
    witness seq(64, _ => '0')

  datatype PendingAuthorization =
    PendingAuthorization(tenant: TenantId, connection: ConnectionId, nonceDigest: Digest, expiresAt: int)

  /** The characters that `str.strip` removes. */
  predicate Whitespace(c: char) {
    var n := c as int;
    || 9 <= n <= 13 || 28 <= n <= 32 || n == 0x85 || n == 0xA0 || n == 0x1680 || 0x2000 <= n <= 0x200A
    || n == 0x2028 || n == 0x2029 || n == 0x202F || n == 0x205F || n == 0x3000
  }

  /** The same characters, one by one. */
  lemma WhitespaceSet(c: char)
    ensures Whitespace(c) <==>
            c as int in {0x09, 0x0A, 0x0B, 0x0C, 0x0D, 0x1C, 0x1D, 0x1E, 0x1F, 0x20, 0x85, 0xA0, 0x1680, 0x2000, 0x2001,
                         0x2002, 0x2003, 0x2004, 0x2005, 0x2006, 0x2007, 0x2008, 0x2009, 0x200A, 0x2028, 0x2029,
                         0x202F, 0x205F, 0x3000}
  {
  }

  function StripLeft(s: string): string {
    if s != "" && Whitespace(s[0]) then StripLeft(s[1..]) else s
  }

  function StripRight(s: string): string {
    if s != "" && Whitespace(s[|s| - 1]) then StripRight(s[..|s| - 1]) else s
  }

  function Strip(s: string): string {
    StripRight(StripLeft(s))
  }

  lemma {:induction false} StripLeftShortens(s: string)
    ensures |StripLeft(s)| <= |s|
    ensures s != "" && Whitespace(s[0]) ==> |StripLeft(s)| < |s|
  {
    if s == "" || !Whitespace(s[0]) {
    } else {
      StripLeftShortens(s[1..]);
    }
  }

  lemma {:induction false} StripRightShortens(s: string)
    ensures |StripRight(s)| <= |s|
    ensures s != "" && Whitespace(s[|s| - 1]) ==> |StripRight(s)| < |s|
  {
    if s == "" || !Whitespace(s[|s| - 1]) {
    } else {
      StripRightShortens(s[..|s| - 1]);
    }
  }

  lemma StripShortens(s: string)
    ensures s != "" && (Whitespace(s[0]) || Whitespace(s[|s| - 1])) ==> |Strip(s)| < |s|
  {
    StripLeftShortens(s);
    StripRightShortens(StripLeft(s));
    StripRightShortens(s);
  }

  predicate Visible(s: string) {
    forall i :: 0 <= i < |s| ==> 33 <= s[i] as int <= 126
  }

  predicate ValidCredential(value: string) {
    value != "" && value == Strip(value) && |value| <= 512 && Ascii(value) && Visible(value)
  }

  predicate NonceCharacter(c: char) {
    'a' <= c <= 'z' || 'A' <= c <= 'Z' || '0' <= c <= '9' || c == '-' || c == '_'
  }

  predicate ValidNonce(nonce: string) {
    32 <= |nonce| <= 128 && Ascii(nonce) && forall i :: 0 <= i < |nonce| ==> NonceCharacter(nonce[i])
  }

  /** Two of the five tests follow from the others: only length and visible ASCII decide. */
  lemma CredentialTest(value: string)
    ensures ValidCredential(value) <==> 0 < |value| <= 512 && Visible(value)
  {
  }

  /** Exactly the texts of 32 to 128 characters of the URL-safe alphabet, such as the 43 that are drawn. */
  lemma NonceTest(nonce: string)
    ensures ValidNonce(nonce) <==>
            && 32 <= |nonce| <= 128
            && forall i :: 0 <= i < |nonce| ==>
                 var n := nonce[i] as int;
                 n == 45 || 48 <= n <= 57 || 65 <= n <= 90 || n == 95 || 97 <= n <= 122
  {
  }

  function StateFields(nonce: string): (fields: seq<Field>)
    requires Ascii(nonce)
    ensures AsciiFields(fields)
  {
    [Field("state", nonce)]
  }

  function RedirectParams(nonce: string): (params: string)
    requires Ascii(nonce)
    ensures Ascii(params)
  {
    UrlEncodeIsAscii(StateFields(nonce));
    UrlEncode(StateFields(nonce))
  }

  function QueryFields(apiKey: string, params: string): (fields: seq<Field>)
    requires Ascii(apiKey) && Ascii(params)
    ensures AsciiFields(fields)
  {
    assert Ascii("v") && Ascii("3");
    assert Ascii("api_key");
    assert Ascii("redirect_params");
    [Field("v", "3"), Field("api_key", apiKey), Field("redirect_params", params)]
  }

  function LoginUrl(apiKey: string, nonce: string): string
    requires Ascii(apiKey) && Ascii(nonce)
  {
    LOGIN_URL + "?" + UrlEncode(QueryFields(apiKey, RedirectParams(nonce)))
  }

  /** What the broker's side makes of a login URL: base, form fields, and the form nested in `redirect_params`. */
  datatype ReadLogin = ReadLogin(base: string, fields: seq<Field>, nested: seq<Field>)

  function ReadLoginUrl(url: string): ReadLogin {
    var (base, query) := Partition(url, '?');
    var fields := ParseForm(query);
    ReadLogin(base, fields, if |fields| == 3 then ParseForm(fields[2].value) else [])
  }

  lemma BaseIsPlain()
    ensures '?' !in LOGIN_URL
  {
  }

  lemma LoginUrlParts(apiKey: string, nonce: string)
    requires Ascii(apiKey) && Ascii(nonce)
    ensures Partition(LoginUrl(apiKey, nonce), '?') ==
            (LOGIN_URL, UrlEncode(QueryFields(apiKey, RedirectParams(nonce))))
  {
    BaseIsPlain();
    PartitionFirst(LOGIN_URL, '?', UrlEncode(QueryFields(apiKey, RedirectParams(nonce))));
  }

  /** Both layers of encoding are undone: the key and the nonce arrive unchanged, and nothing else does. */
  lemma LoginUrlRoundTrip(apiKey: string, nonce: string)
    requires Ascii(apiKey) && Ascii(nonce)
    ensures ReadLoginUrl(LoginUrl(apiKey, nonce)) ==
            ReadLogin("https://kite.zerodha.com/connect/login",
                      [Field("v", "3"), Field("api_key", apiKey), Field("redirect_params", RedirectParams(nonce))],
                      [Field("state", nonce)])
  {
    var params := RedirectParams(nonce);
    FormRoundTrip(StateFields(nonce));
    FormRoundTrip(QueryFields(apiKey, params));
    LoginUrlParts(apiKey, nonce);
  }

  /** A name of unreserved characters stands in the form as it is. */
  lemma FieldText(name: string, value: string)
    requires Ascii(name) && Ascii(value) && forall i :: 0 <= i < |name| ==> Unreserved(name[i])
    ensures EncodeField(Field(name, value)) == name + "=" + Quote(value)
  {
    QuotePlain(name);
  }

  lemma OneField(f: Field)
    requires AsciiFields([f])
    ensures UrlEncode([f]) == EncodeField(f)
  {
    assert EncodeEach([f]) == [EncodeField(f)];
  }

  lemma JoinThree(a: string, b: string, c: string, sep: char)
    ensures Join([a, b, c], sep) == a + [sep] + (b + [sep] + c)
  {
    assert [a, b, c][1..] == [b, c] && [b, c][1..] == [c];
    assert Join([c], sep) == c;
    assert Join([b, c], sep) == b + [sep] + c;
  }

  lemma EachOfThree(f: Field, g: Field, h: Field)
    requires AsciiFields([f, g, h])
    requires Ascii(f.name) && Ascii(f.value) && Ascii(g.name) && Ascii(g.value) && Ascii(h.name) && Ascii(h.value)
    ensures UrlEncode([f, g, h]) == EncodeField(f) + "&" + (EncodeField(g) + "&" + EncodeField(h))
  {
    assert EncodeEach([f, g, h]) == [EncodeField(f), EncodeField(g), EncodeField(h)];
    JoinThree(EncodeField(f), EncodeField(g), EncodeField(h), '&');
  }

  predicate Plain(name: string) {
    forall i :: 0 <= i < |name| ==> Unreserved(name[i])
  }

  /** A form of three fields with plain names. */
  lemma ThreeFields(n1: string, v1: string, n2: string, v2: string, n3: string, v3: string)
    requires Plain(n1) && Plain(n2) && Plain(n3)
    requires AsciiFields([Field(n1, v1), Field(n2, v2), Field(n3, v3)])
    requires Ascii(n1) && Ascii(n2) && Ascii(n3) && Ascii(v1) && Ascii(v2) && Ascii(v3)
    ensures UrlEncode([Field(n1, v1), Field(n2, v2), Field(n3, v3)]) ==
            n1 + "=" + Quote(v1) + "&" + (n2 + "=" + Quote(v2) + "&" + (n3 + "=" + Quote(v3)))
  {
    FieldText(n1, v1);
    FieldText(n2, v2);
    FieldText(n3, v3);
    EachOfThree(Field(n1, v1), Field(n2, v2), Field(n3, v3));
  }

  lemma StateForm(nonce: string)
    requires ValidNonce(nonce)
    ensures RedirectParams(nonce) == "state" + "=" + nonce
  {
    QuotePlain(nonce);
    FieldText("state", nonce);
    OneField(Field("state", nonce));
  }

  lemma QuotedPair(name: string, value: string)
    requires Plain(name) && Plain(value) && Ascii(name) && Ascii(value)
    ensures Ascii(name + "=" + value) && Quote(name + "=" + value) == name + "%3D" + value
  {
    QuotePlain(name);
    QuotePlain(value);
    QuotesExactly('=');
    AsciiAppend(name, "=");
    AsciiAppend(name + "=", value);
    QuoteAppend(name, "=");
    QuoteAppend(name + "=", value);
  }

  lemma PlainNames(v: string, three: string, key: string, redirect: string)
    requires v == "v" && three == "3" && key == "api_key" && redirect == "redirect_params"
    ensures Plain(v) && Plain(three) && Plain(key) && Plain(redirect)
    ensures Ascii(v) && Ascii(three) && Ascii(key) && Ascii(redirect)
  {
  }

  lemma QueryText(apiKey: string, params: string, v: string, three: string, key: string, redirect: string)
    requires Ascii(apiKey) && Ascii(params)
    requires v == "v" && three == "3" && key == "api_key" && redirect == "redirect_params"
    ensures UrlEncode(QueryFields(apiKey, params)) ==
            v + "=" + three + "&" + (key + "=" + Quote(apiKey) + "&" + (redirect + "=" + Quote(params)))
  {
    PlainNames(v, three, key, redirect);
    QuotePlain(three);
    ThreeFields(v, three, key, apiKey, redirect, params);
    assert QueryFields(apiKey, params) ==
           [Field(v, three), Field(key, apiKey), Field(redirect, params)];
  }

  /** The URL itself, as it is sent to the browser: the names, the separators and both layers written out. */
  lemma LoginUrlText(apiKey: string, nonce: string, v: string, three: string, key: string, redirect: string,
                     state: string)
    requires ValidCredential(apiKey) && ValidNonce(nonce)
    requires v == "v" && three == "3" && key == "api_key" && redirect == "redirect_params" && state == "state"
    ensures LoginUrl(apiKey, nonce) ==
            "https://kite.zerodha.com/connect/login" + "?"
            + (v + "=" + three + "&" + (key + "=" + Quote(apiKey) + "&" + (redirect + "=" + (state + "%3D" + nonce))))
  {
    var params := RedirectParams(nonce);
    StateForm(nonce);
    QuotedPair(state, nonce);
    assert Quote(params) == state + "%3D" + nonce;
    QueryText(apiKey, params, v, three, key, redirect);
  }

  /** Different logins never share a URL. */
  lemma LoginUrlInjective(key1: string, nonce1: string, key2: string, nonce2: string)
    requires ValidCredential(key1) && ValidNonce(nonce1) && ValidCredential(key2) && ValidNonce(nonce2)
    requires LoginUrl(key1, nonce1) == LoginUrl(key2, nonce2)
    ensures key1 == key2 && nonce1 == nonce2
  {
    LoginUrlRoundTrip(key1, nonce1);
    LoginUrlRoundTrip(key2, nonce2);
    var read := ReadLoginUrl(LoginUrl(key1, nonce1));
    assert read.fields[1].value == key1 && read.nested[0].value == nonce1;
  }

  /** The nonce table: `issue` refuses a present key, `consume` deletes and returns in one step. */
  class NonceStore {
    var rows: map<Digest, PendingAuthorization>

    constructor ()
      ensures rows == map[]
    {
      rows := map[];
    }

    method Issue(authorization: PendingAuthorization) returns (stored: bool)
      modifies this
      ensures stored == (authorization.nonceDigest !in old(rows))
      ensures rows == if stored then old(rows)[authorization.nonceDigest := authorization] else old(rows)
    {
      stored := authorization.nonceDigest !in rows;
      if stored {
        rows := rows[authorization.nonceDigest := authorization];
      }
    }

    method Consume(digest: Digest) returns (found: Option<PendingAuthorization>)
      modifies this
      ensures found == if digest in old(rows) then Some(old(rows)[digest]) else None
      ensures rows == old(rows) - {digest}
    {
      found := if digest in rows then Some(rows[digest]) else None;
      rows := rows - {digest};
    }
  }
}
