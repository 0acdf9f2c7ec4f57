/** Versioned envelope encryption: what the repository adds around AES-GCM and AES-KWP. */
module Envelope {
  import opened Wrappers
  import opened KiteAuthorization

  const KEY_SIZE := 32
  const NONCE_SIZE := 12
  const TAG_SIZE := 16
  const MAX_ASSOCIATED_DATA := 8 * 1024

  /** The two primitives, as functions: authenticated encryption and key wrapping with padding. */
  datatype Primitives = Primitives(
    seal: (Bytes, Bytes, Bytes, Bytes) -> Bytes,             // dek, nonce, plaintext, associated data
    open: (Bytes, Bytes, Bytes, Bytes) -> Option<Bytes>,     // dek, nonce, ciphertext, associated data
    wrap: (Bytes, Bytes) -> Bytes,                           // kek, dek
    unwrap: (Bytes, Bytes) -> Option<Bytes>)                 // kek, wrapped dek

  predicate Sized(dek: Bytes, nonce: Bytes) {
    |dek| == KEY_SIZE && |nonce| == NONCE_SIZE
  }

  /** The laws of NIST SP 800-38D and RFC 5649 that are relied on: both invert, and the ciphertext carries a tag. */
  ghost predicate Lawful(p: Primitives) {
    && (forall dek, nonce, plaintext, aad :: Sized(dek, nonce) ==>
          p.open(dek, nonce, p.seal(dek, nonce, plaintext, aad), aad) == Some(plaintext))
    && (forall dek, nonce, plaintext, aad :: Sized(dek, nonce) ==>
          |p.seal(dek, nonce, plaintext, aad)| == |plaintext| + TAG_SIZE)
    && (forall kek, dek :: |kek| == |dek| == KEY_SIZE ==> p.unwrap(kek, p.wrap(kek, dek)) == Some(dek))
    && (forall kek, dek :: |kek| == |dek| == KEY_SIZE ==> |p.wrap(kek, dek)| > 0)
  }

  const ZEROS: Bytes := seq(TAG_SIZE, _ => 0)

  /** Primitives that hide nothing, but obey the laws and unwrap a key under its own wrapping key only. */
  function PlainPrimitives(): Primitives {
    Primitives(
      (dek: Bytes, nonce: Bytes, plaintext: Bytes, aad: Bytes) => plaintext + ZEROS,
      (dek: Bytes, nonce: Bytes, ciphertext: Bytes, aad: Bytes) =>
        if |ciphertext| < TAG_SIZE then None else Some(ciphertext[..|ciphertext| - TAG_SIZE]),
      (kek: Bytes, dek: Bytes) => kek + dek,
      (kek: Bytes, wrapped: Bytes) => if kek <= wrapped then Some(wrapped[|kek|..]) else None)
  }

  /** The laws do not contradict each other. */
  lemma LawsAreConsistent()
    ensures Lawful(PlainPrimitives())
  {
    assert forall s: Bytes :: (s + ZEROS)[..|s + ZEROS| - TAG_SIZE] == s;
    assert forall kek: Bytes, dek: Bytes :: kek <= kek + dek && (kek + dek)[|kek|..] == dek;
  }

  /** The cipher was forged: this sealed text opens under associated data it was not sealed with. */
  predicate SealForged(p: Primitives, dek: Bytes, nonce: Bytes, plaintext: Bytes, aad: Bytes, other: Bytes) {
    other != aad && p.open(dek, nonce, p.seal(dek, nonce, plaintext, aad), other).Some?
  }

  /** The key wrapping was forged: a key unwraps under material it was not wrapped with. */
  predicate WrapForged(p: Primitives, dek: Bytes, material: Bytes, other: Bytes) {
    other != material && p.unwrap(other, p.wrap(material, dek)).Some?
  }

  datatype KeyEncryptionKey = KeyEncryptionKey(version: string, material: Bytes)

  datatype EncryptedSecret = EncryptedSecret(keyVersion: string, wrappedDek: Bytes, nonce: Bytes, ciphertext: Bytes)

  datatype EnvelopeError = BadAssociatedData | InvalidKey | KeyUnavailable | AuthenticationFailed

  /** A provider of keys: the current one, and any version it still resolves. */
  datatype Provider = Provider(current: Result<KeyEncryptionKey, EnvelopeError>,
                               get: string -> Result<KeyEncryptionKey, EnvelopeError>)

  predicate VersionCharacter(c: char) {
    'a' <= c <= 'z' || 'A' <= c <= 'Z' || '0' <= c <= '9' || c in {'.', '_', '-'}
  }

  predicate ValidKeyVersion(version: string) {
    && version != "" && version == Strip(version) && |version| <= 64
    && (forall i :: 0 <= i < |version| ==> version[i] as int < 128)
    && forall i :: 0 <= i < |version| ==> VersionCharacter(version[i])
  }

  /** Exactly the texts of 1 to 64 ASCII letters, digits, dots, underscores and hyphens. */
  lemma KeyVersionTest(version: string)
    ensures ValidKeyVersion(version) <==>
            && 1 <= |version| <= 64
            && forall i :: 0 <= i < |version| ==>
                 var n := version[i] as int;
                 n in {45, 46, 95} || 48 <= n <= 57 || 65 <= n <= 90 || 97 <= n <= 122
  {
  }

  /** What the key constructor accepts. */
  predicate ValidKey(key: KeyEncryptionKey) {
    ValidKeyVersion(key.version) && |key.material| == KEY_SIZE
  }

  /** What the constructor of the encrypted value accepts. */
  predicate ValidSecret(s: EncryptedSecret) {
    ValidKeyVersion(s.keyVersion) && |s.nonce| == NONCE_SIZE && s.wrappedDek != [] && s.ciphertext != []
  }

  lemma SecretRefusals(s: EncryptedSecret)
    ensures |s.nonce| != 12 || s.wrappedDek == [] || s.ciphertext == [] || s.keyVersion == "" ==> !ValidSecret(s)
    ensures ValidSecret(s) ==> 1 <= |s.keyVersion| <= 64
  {
  }

  predicate ValidAssociatedData(data: Bytes) {
    0 < |data| <= MAX_ASSOCIATED_DATA
  }

  function AsciiBytes(s: string): Bytes
    requires forall i :: 0 <= i < |s| ==> s[i] as int < 128
  {
    seq(|s|, i requires 0 <= i < |s| => s[i] as int as byte)
  }

  const NUL: Bytes := [0]

  function Prefix(): Bytes {
    AsciiBytes("portfolio-manager:v1")
  }

  function BindAssociatedData(data: Bytes, version: string): Bytes
    requires forall i :: 0 <= i < |version| ==> version[i] as int < 128
  {
    Prefix() + NUL + AsciiBytes(version) + NUL + data
  }

  /** The layout of a frame: the fixed text, the version and the data, apart by one zero byte each. */
  lemma FrameLayout(data: Bytes, version: string)
    requires ValidKeyVersion(version)
    ensures var frame := BindAssociatedData(data, version);
            var head := "portfolio-manager:v1";
            && |frame| == 22 + |version| + |data|
            && (forall i :: 0 <= i < 20 ==> frame[i] as int == head[i] as int)
            && frame[20] == 0 && frame[21 + |version|] == 0
            && (forall i :: 0 <= i < |version| ==> frame[21 + i] as int == version[i] as int)
            && frame[22 + |version|..] == data
  {
  }

  /** Two texts before a separator they do not hold, each followed by anything: they part at the same place. */
  lemma SeparatorDecides<T>(a: seq<T>, b: seq<T>, x: seq<T>, y: seq<T>, sep: T)
    requires sep !in a && sep !in b && a + [sep] + x == b + [sep] + y
    ensures a == b && x == y
  {
    var s := a + [sep] + x;
    assert s == b + [sep] + y;
    assert s[|a|] == sep && forall i :: 0 <= i < |a| ==> s[i] == a[i] && s[i] != sep;
    assert s[|b|] == sep && forall i :: 0 <= i < |b| ==> s[i] == b[i] && s[i] != sep;
    assert a == s[..|a|] && b == s[..|b|];
    assert x == s[|a| + 1..] && y == s[|b| + 1..];
  }

  lemma AsciiInjective(a: string, b: string)
    requires ValidKeyVersion(a) && ValidKeyVersion(b) && AsciiBytes(a) == AsciiBytes(b)
    ensures a == b
  {
    assert |a| == |AsciiBytes(a)| == |b|;
    forall i | 0 <= i < |a| ensures a[i] == b[i] {
      assert AsciiBytes(a)[i] == AsciiBytes(b)[i];
    }
  }

  /** The framing binds both parts: no two pairs of valid version and associated data share one frame. */
  lemma FramingInjective(data1: Bytes, version1: string, data2: Bytes, version2: string)
    requires ValidKeyVersion(version1) && ValidKeyVersion(version2)
    requires BindAssociatedData(data1, version1) == BindAssociatedData(data2, version2)
    ensures data1 == data2 && version1 == version2
  {
    var v1, v2 := AsciiBytes(version1), AsciiBytes(version2);
    var head := Prefix() + NUL;
    var f1, f2 := BindAssociatedData(data1, version1), BindAssociatedData(data2, version2);
    assert f1[|head|..] == v1 + [0] + data1;
    assert f2[|head|..] == v2 + [0] + data2;
    SeparatorDecides(v1, v2, data1, data2, 0);
    AsciiInjective(version1, version2);
  }

  /** Without the check on versions the framing would be ambiguous: the separator may move. */
  lemma FramingNeedsValidVersions(a: Bytes)
    ensures var inner := "a" + [0 as char] + "b";
            && !ValidKeyVersion(inner)
            && BindAssociatedData(a, inner) == BindAssociatedData(AsciiBytes("b") + NUL + a, "a")
            && inner != "a"
  {
    var inner := "a" + [0 as char] + "b";
    assert !VersionCharacter(inner[1]);
    assert AsciiBytes(inner) == AsciiBytes("a") + NUL + AsciiBytes("b");
  }

  /** The key constructor refuses an unusable version or material, so a provider hands out valid keys only. */
  ghost predicate ValidProvider(provider: Provider) {
    && (provider.current.Ok? ==> ValidKey(provider.current.value))
    && (forall v :: provider.get(v).Ok? ==> ValidKey(provider.get(v).value))
  }

  ghost function EncryptSecret(p: Primitives, plaintext: Bytes, data: Bytes, provider: Provider,
                               dek: Bytes, nonce: Bytes): Result<EncryptedSecret, EnvelopeError>
    requires ValidProvider(provider)
  {
    if !ValidAssociatedData(data) then Err(BadAssociatedData)
    else
      match provider.current
      case Err(error) => Err(error)
      case Ok(key) =>
        var aad := BindAssociatedData(data, key.version);
        Ok(EncryptedSecret(key.version, p.wrap(key.material, dek), nonce, p.seal(dek, nonce, plaintext, aad)))
  }

  ghost function DecryptSecret(p: Primitives, secret: EncryptedSecret, data: Bytes, provider: Provider)
    : Result<Bytes, EnvelopeError>
    requires ValidProvider(provider)
  {
    if !ValidAssociatedData(data) then Err(BadAssociatedData)
    else
      match provider.get(secret.keyVersion)
      case Err(error) => Err(error)
      case Ok(key) =>
        var aad := BindAssociatedData(data, key.version);
        match p.unwrap(key.material, secret.wrappedDek)
        case None => Err(AuthenticationFailed)
        case Some(dek) =>
          match p.open(dek, secret.nonce, secret.ciphertext, aad)
          case None => Err(AuthenticationFailed)
          case Some(plaintext) => Ok(plaintext)
  }

  /** Encryption fails exactly on bad associated data or without a key, and never trips its result's constructor. */
  lemma EncryptYieldsValidSecret(p: Primitives, plaintext: Bytes, data: Bytes, provider: Provider,
                                 dek: Bytes, nonce: Bytes)
    requires Lawful(p) && ValidProvider(provider) && Sized(dek, nonce)
    ensures var r := EncryptSecret(p, plaintext, data, provider, dek, nonce);
            && (r.Ok? <==> 1 <= |data| <= 8192 && provider.current.Ok?)
            && (r.Ok? ==> ValidSecret(r.value) && r.value.keyVersion == provider.current.value.version)
            && (r.Ok? ==> |r.value.ciphertext| == |plaintext| + 16 && r.value.nonce == nonce)
  {
  }

  /** `secret` is what encryption made of `plaintext`, with this data key and nonce drawn. */
  ghost predicate Encrypted(p: Primitives, secret: EncryptedSecret, plaintext: Bytes, data: Bytes, before: Provider,
                            dek: Bytes, nonce: Bytes) {
    && Lawful(p) && Sized(dek, nonce) && ValidProvider(before)
    && EncryptSecret(p, plaintext, data, before, dek, nonce) == Ok(secret)
  }

  /** Round trip across rotation: any later provider that still resolves the version gives the plaintext back. */
  lemma DecryptsAfterRotation(p: Primitives, secret: EncryptedSecret, plaintext: Bytes, data: Bytes,
                              before: Provider, after: Provider, dek: Bytes, nonce: Bytes)
    requires Encrypted(p, secret, plaintext, data, before, dek, nonce) && ValidProvider(after)
    requires after.get(secret.keyVersion) == before.current
    ensures DecryptSecret(p, secret, data, after) == Ok(plaintext)
  {
  }

  /**
   * What any later provider makes of a secret. Under another tenant, object or schema, or a relabelled key, it
   * opens only through a forgery of the cipher, and under other key material only through one of the wrapping:
   * the framing adds no confusion of its own.
   */
  lemma OtherContextNeedsForgery(p: Primitives, secret: EncryptedSecret, plaintext: Bytes, data: Bytes, other: Bytes,
                                 before: Provider, after: Provider, dek: Bytes, nonce: Bytes)
    requires Encrypted(p, secret, plaintext, data, before, dek, nonce) && ValidProvider(after)
    ensures var key, found := before.current.value, after.get(secret.keyVersion);
            var r := DecryptSecret(p, secret, other, after);
            if !ValidAssociatedData(other) then r == Err(BadAssociatedData)
            else if found.Err? then r == Err(found.error)
            else
              var aad := BindAssociatedData(data, key.version);
              var aad' := BindAssociatedData(other, found.value.version);
              if found.value.material == key.material then
                if other == data && found.value.version == key.version then r == Ok(plaintext)
                else if SealForged(p, dek, nonce, plaintext, aad, aad') then r.Ok?
                else r == Err(AuthenticationFailed)
              else if WrapForged(p, dek, key.material, found.value.material) then
                var unwrapped := p.unwrap(found.value.material, p.wrap(key.material, dek)).value;
                var result := p.open(unwrapped, nonce, p.seal(dek, nonce, plaintext, aad), aad');
                r == if result.Some? then Ok(result.value) else Err(AuthenticationFailed)
              else r == Err(AuthenticationFailed)
  {
    var key, found := before.current.value, after.get(secret.keyVersion);
    var aad := BindAssociatedData(data, key.version);
    assert p.unwrap(key.material, p.wrap(key.material, dek)) == Some(dek);
    assert p.open(dek, nonce, p.seal(dek, nonce, plaintext, aad), aad) == Some(plaintext);
    if found.Ok? && BindAssociatedData(other, found.value.version) == aad {
      FramingInjective(other, found.value.version, data, key.version);
    }
  }

  /** What the file provider reads at one moment; the key constructor raises for an unusable version or content. */
  function LoadKey(version: string, contents: Bytes): Result<KeyEncryptionKey, EnvelopeError> {
    var key := KeyEncryptionKey(version, contents);
    if ValidKey(key) then Ok(key) else Err(InvalidKey)
  }

  /** The file provider resolves its own label only, to whatever the file holds at that moment. */
  function FileProvider(version: string, contents: Bytes): Provider {
    Provider(LoadKey(version, contents), v => if v == version then LoadKey(version, contents) else Err(KeyUnavailable))
  }

  /**
   * A secret sealed with a key file opens again if and only if both the label and the content of the file are
   * still the same, unless key wrapping is forged. The other cases differ in the error.
   */
  lemma FileProviderKeepsOneVersion(p: Primitives, secret: EncryptedSecret, plaintext: Bytes, data: Bytes,
                                    oldVersion: string, oldContents: Bytes, newVersion: string, newContents: Bytes,
                                    dek: Bytes, nonce: Bytes)
    requires Encrypted(p, secret, plaintext, data, FileProvider(oldVersion, oldContents), dek, nonce)
    ensures var r := DecryptSecret(p, secret, data, FileProvider(newVersion, newContents));
            if newVersion != oldVersion then r == Err(KeyUnavailable)
            else if |newContents| != 32 then r == Err(InvalidKey)
            else if newContents == oldContents then r == Ok(plaintext)
            else if WrapForged(p, dek, oldContents, newContents) then r.Ok? || r == Err(AuthenticationFailed)
            else r == Err(AuthenticationFailed)
  {
    var before, after := FileProvider(oldVersion, oldContents), FileProvider(newVersion, newContents);
    OtherContextNeedsForgery(p, secret, plaintext, data, data, before, after, dek, nonce);
  }

  /** Replacing the file under the same label does lose the secrets of before: the wrapping refuses the new key. */
  lemma ReplacedFileLosesSecret(plaintext: Bytes, data: Bytes, oldContents: Bytes, newContents: Bytes,
                                dek: Bytes, nonce: Bytes)
    requires Sized(dek, nonce) && ValidAssociatedData(data)
    requires |oldContents| == |newContents| == KEY_SIZE && oldContents != newContents
    ensures var p := PlainPrimitives();
            var r := EncryptSecret(p, plaintext, data, FileProvider("v1", oldContents), dek, nonce);
            && Lawful(p) && r.Ok?
            && DecryptSecret(p, r.value, data, FileProvider("v1", newContents)) == Err(AuthenticationFailed)
  {
    LawsAreConsistent();
    var wrapped := oldContents + dek;
    assert wrapped[..KEY_SIZE] == oldContents;
    assert !(newContents <= wrapped);
  }
}
