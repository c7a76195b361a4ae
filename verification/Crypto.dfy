/** The versioned keyring and the record contexts, over an abstract authenticated cipher. */
module Crypto {
  import opened Common

  type Bytes = seq<int>
  type Key = Bytes
  type Fields = map<string, string>

  /** AES-256-GCM behind a 12-byte nonce, and the JSON text of a credential. */
  datatype Library = Library(
    seal: (Key, Bytes, string, Bytes) -> Bytes,
    open: (Key, string, Bytes) -> Option<Bytes>,
    dump: Fields -> Bytes,
    parse: Bytes -> Option<Fields>)

  /** Opening undoes sealing, an envelope is 28 bytes longer than its plaintext, a wrong key
      never opens, and parsing undoes dumping. */
  ghost predicate Lawful(lib: Library) {
    && (forall k, n, a, p :: lib.open(k, a, lib.seal(k, n, a, p)) == Some(p))
    && (forall k, n, a, p :: |lib.seal(k, n, a, p)| == 28 + |p|)
    && (forall k, a, e :: lib.open(k, a, e).Some? ==> |e| == 28 + |lib.open(k, a, e).value|)
    && (forall k, q, n, a, p :: q != k ==> lib.open(q, a, lib.seal(k, n, a, p)) == None)
    && (forall f :: lib.parse(lib.dump(f)) == Some(f) && |lib.dump(f)| >= 2)
  }

  datatype Keyring = Keyring(keys: map<int, Key>, primary: int) {
    predicate Valid() {
      primary in keys && forall v | v in keys :: v >= 1
    }
  }

  /** `version or self.primary_version`. */
  function OrPrimary(ring: Keyring, version: int): int {
    if version == 0 then ring.primary else version
  }

  function Encrypt(
    lib: Library, ring: Keyring, nonce: Bytes, plaintext: Bytes, aad: string, version: int): Option<Bytes>
  {
    var v := OrPrimary(ring, version);
    if v !in ring.keys then None else Some(lib.seal(ring.keys[v], nonce, aad, plaintext))
  }

  function Decrypt(lib: Library, ring: Keyring, envelope: Bytes, aad: string, version: int): Option<Bytes> {
    if |envelope| < 29 || version !in ring.keys then None else lib.open(ring.keys[version], aad, envelope)
  }

  /** Encrypting and decrypting under one version is the identity exactly on nonempty
      plaintexts: the length test of `decrypt_with_aad` rejects the envelope of an empty one. */
  lemma EncryptDecrypt(lib: Library, ring: Keyring, nonce: Bytes, plaintext: Bytes, aad: string, version: int)
    requires Lawful(lib) && ring.Valid() && version in ring.keys
    ensures Encrypt(lib, ring, nonce, plaintext, aad, version).Some?
    ensures var envelope := Encrypt(lib, ring, nonce, plaintext, aad, version).value;
      Decrypt(lib, ring, envelope, aad, version) == Some(plaintext) <==> plaintext != []
  {
  }

  // ---------------------------------------------------------------- records

  datatype Kind = Credential | Mfa | System | RunSecret

  datatype Record = Record(kind: Kind, id: string, sub: Option<nat>, payload: Bytes, version: int)

  function Decimal(n: nat): string {
    if n < 10 then [('0' as int + n) as char] else Decimal(n / 10) + [('0' as int + n % 10) as char]
  }

  /** The additional data of a record's envelope; None where building it raises. */
  function Context(record: Record): Option<string> {
    match record.kind
    case Credential =>
      if record.sub.None? then None else Some("ops-composer:credential:" + record.id + ":" + Decimal(record.sub.value))
    case Mfa => Purpose("totp", record.id)
    case System => Purpose("system-secret", record.id)
    case RunSecret => Purpose("run-parameters", record.id)
  }

  function Purpose(purpose: string, subject: string): Option<string> {
    if subject == "" || '\0' in subject then None else Some("ops-composer:" + purpose + ":" + subject + ":v1")
  }

  function ReadDecimal(s: string): int {
    if s == "" then 0 else ReadDecimal(s[..|s| - 1]) * 10 + (s[|s| - 1] as int - '0' as int)
  }

  /** Decimal digits without a leading zero, reading back as the number. */
  lemma {:induction false} DecimalReadsBack(n: nat)
    ensures Decimal(n) != "" && (forall c | c in Decimal(n) :: '0' <= c <= '9')
    ensures ReadDecimal(Decimal(n)) == n && (n > 0 ==> Decimal(n)[0] != '0')
  {
    var digits := Decimal(n);
    if n < 10 {
      assert digits[..0] == "";
    } else {
      DecimalReadsBack(n / 10);
      assert digits[..|digits| - 1] == Decimal(n / 10);
    }
  }

  lemma DecimalInjective(m: nat, n: nat)
    requires Decimal(m) == Decimal(n)
    ensures m == n
  {
    DecimalReadsBack(m);
    DecimalReadsBack(n);
  }

  lemma SubjectInjective(prefix: string, a: string, b: string, end: string)
    requires prefix + a + end == prefix + b + end
    ensures a == b
  {
    var whole := prefix + a + end;
    assert |a| == |b|;
    assert a == whole[|prefix|..|prefix| + |a|] && b == whole[|prefix|..|prefix| + |b|];
  }

  lemma RevisionInjective(prefix: string, a: string, m: nat, b: string, n: nat)
    requires ':' !in a && ':' !in b && prefix + a + ":" + Decimal(m) == prefix + b + ":" + Decimal(n)
    ensures a == b && m == n
  {
    var whole := prefix + a + ":" + Decimal(m);
    assert whole[|prefix| + |a|] == ':' && whole[|prefix| + |b|] == ':';
    assert forall i | |prefix| <= i < |prefix| + |a| :: whole[i] == a[i - |prefix|] && whole[i] != ':';
    assert forall i | |prefix| <= i < |prefix| + |b| :: whole[i] == b[i - |prefix|] && whole[i] != ':';
    assert |a| == |b|;
    assert a == whole[|prefix|..|prefix| + |a|] && b == whole[|prefix|..|prefix| + |b|];
    assert Decimal(m) == whole[|prefix| + |a| + 1..] && Decimal(n) == whole[|prefix| + |b| + 1..];
    DecimalInjective(m, n);
  }

  predicate SameSubject(a: Record, b: Record) {
    a.kind == b.kind && a.id == b.id && (a.kind.Credential? ==> a.sub == b.sub)
  }

  lemma ContextTag(r: Record)
    requires Context(r).Some?
    ensures |Context(r).value| > 13 &&
            Context(r).value[13] == match r.kind
              case Credential => 'c'
              case Mfa => 't'
              case System => 's'
              case RunSecret => 'r'
  {
  }

  /** An envelope's context names one record and no other: its kind, its identifier and, for a
      credential, whose identifier is a UUID, its revision. */
  lemma ContextIdentifies(a: Record, b: Record)
    requires Context(a).Some? && Context(b).Some?
    requires forall r | r in [a, b] && r.kind.Credential? :: ':' !in r.id
    ensures Context(a) == Context(b) <==> SameSubject(a, b)
  {
    hide Decimal;
    ContextTag(a);
    ContextTag(b);
    assert a in [a, b] && b in [a, b];
    if Context(a) == Context(b) {
      assert a.kind == b.kind;
      match a.kind
      case Credential => RevisionInjective("ops-composer:credential:", a.id, a.sub.value, b.id, b.sub.value);
      case Mfa => SubjectInjective("ops-composer:" + "totp" + ":", a.id, b.id, ":v1");
      case System => SubjectInjective("ops-composer:" + "system-secret" + ":", a.id, b.id, ":v1");
      case RunSecret => SubjectInjective("ops-composer:" + "run-parameters" + ":", a.id, b.id, ":v1");
    }
  }

  /** What a record protects: the fields of a credential, or the bytes of anything else. */
  datatype Content = Secret(fields: Fields) | Raw(bytes: Bytes)

  /** Decrypting a record under its own context and its recorded key version. */
  function Meaning(lib: Library, ring: Keyring, record: Record): Option<Content> {
    var aad := Context(record);
    if aad.None? then None
    else
      var version := if record.kind.Credential? then OrPrimary(ring, record.version) else record.version;
      var plaintext := Decrypt(lib, ring, record.payload, aad.value, version);
      if plaintext.None? then None
      else if record.kind.Credential? then
        var fields := lib.parse(plaintext.value);
        if fields.None? then None else Some(Secret(fields.value))
      else Some(Raw(plaintext.value))
  }

  /** Reading a record is opening its envelope, whole: under its context and the key its version
      records, given an envelope of at least 29 bytes; a credential's text must parse. */
  lemma MeaningExact(lib: Library, ring: Keyring, record: Record, content: Content)
    ensures Meaning(lib, ring, record) == Some(content) <==>
      && Context(record).Some? && |record.payload| >= 29
      && (record.kind != Credential ==>
            && record.version in ring.keys && content.Raw?
            && lib.open(ring.keys[record.version], Context(record).value, record.payload) == Some(content.bytes))
      && (record.kind == Credential ==>
            var version := if record.version == 0 then ring.primary else record.version;
            && version in ring.keys && content.Secret?
            && var text := lib.open(ring.keys[version], Context(record).value, record.payload);
               text.Some? && lib.parse(text.value) == Some(content.fields))
  {
  }

  /** A context is missing exactly for a credential without a revision, and for another record
      whose identifier is empty or has a NUL in it. */
  lemma ContextMissingIff(record: Record)
    ensures Context(record) == None <==>
      if record.kind == Credential then record.sub == None else record.id == "" || '\0' in record.id
  {
  }

  /** `_reencrypt`. A credential is encrypted under the primary key whatever the target is. */
  function Reencrypt(lib: Library, ring: Keyring, record: Record, target: int, nonce: Bytes): Option<Record> {
    var content := Meaning(lib, ring, record);
    if content.None? then None
    else
      var envelope :=
        match content.value
        case Secret(fields) => Encrypt(lib, ring, nonce, lib.dump(fields), Context(record).value, 0)
        case Raw(bytes) => Encrypt(lib, ring, nonce, bytes, Context(record).value, target);
      if envelope.None? then None else Some(record.(payload := envelope.value, version := target))
  }

  /** The target version unlocks what was sealed. For credentials that is the guard of
      `process_rotation_batch`, which lets through only the primary version. */
  predicate Labelled(ring: Keyring, kind: Kind, target: int)
    requires ring.Valid()
  {
    kind.Credential? ==> target in ring.keys && ring.keys[target] == ring.keys[ring.primary]
  }

  /** Re-encryption keeps a record's meaning exactly when the target labels the key used. */
  lemma ReencryptKeepsMeaningIff(lib: Library, ring: Keyring, record: Record, target: int, nonce: Bytes)
    requires Lawful(lib) && ring.Valid() && target >= 1
    requires Reencrypt(lib, ring, record, target, nonce).Some?
    ensures var after := Reencrypt(lib, ring, record, target, nonce).value;
      && (Meaning(lib, ring, after) == Meaning(lib, ring, record) <==> Labelled(ring, record.kind, target))
      && after.version == target && after.(payload := record.payload, version := record.version) == record
  {
  }

  /** The same of the envelopes themselves: decrypting the new one, under the same context and the
      new version, gives what decrypting the old one gave, byte for byte, or for a credential
      field for field. */
  lemma ReencryptKeepsPlaintext(lib: Library, ring: Keyring, record: Record, nonce: Bytes)
    requires Lawful(lib) && ring.Valid() && record.version >= 1
    requires Reencrypt(lib, ring, record, ring.primary, nonce).Some?
    ensures var after := Reencrypt(lib, ring, record, ring.primary, nonce).value;
      && Context(record).Some?
      && var was, now := Decrypt(lib, ring, record.payload, Context(record).value, record.version),
                           Decrypt(lib, ring, after.payload, Context(record).value, ring.primary);
         && was.Some? && now.Some?
         && (record.kind != Credential ==> now == was)
         && (record.kind == Credential ==> lib.parse(now.value) == lib.parse(was.value) && lib.parse(was.value).Some?)
  {
    var after := Reencrypt(lib, ring, record, ring.primary, nonce).value;
    ReencryptKeepsMeaningIff(lib, ring, record, ring.primary, nonce);
    MeaningExact(lib, ring, record, Meaning(lib, ring, record).value);
    MeaningExact(lib, ring, after, Meaning(lib, ring, record).value);
    hide Meaning, Reencrypt;
  }

  /** Under the guard, every readable record can be re-encrypted. */
  lemma ReencryptSucceedsIff(lib: Library, ring: Keyring, record: Record, nonce: Bytes)
    requires ring.Valid()
    ensures Reencrypt(lib, ring, record, ring.primary, nonce).Some? <==> Meaning(lib, ring, record).Some?
  {
  }
}
