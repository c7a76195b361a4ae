/** Online key rotation: batches of at most a hundred records of one kind, each batch a
    transaction of its own. */
module Rotation {
  import opened Common
  import opened Crypto

  /** A table of envelopes: `index` lists the primary keys in the order of the batch query. */
  datatype Table = Table(index: seq<string>, rows: map<string, Record>) {
    predicate Valid() {
      && (forall i, j | 0 <= i < j < |index| :: index[i] != index[j])
      && (forall k | k in rows :: k in index)
      && (forall k | k in index :: k in rows)
    }
  }

  /** The four tables, by the kind of record they hold. */
  datatype Vault = Vault(credentials: Table, factors: Table, secrets: Table, inputs: Table) {
    function Of(kind: Kind): Table {
      match kind
      case Credential => credentials
      case Mfa => factors
      case System => secrets
      case RunSecret => inputs
    }

    function With(kind: Kind, table: Table): Vault {
      match kind
      case Credential => this.(credentials := table)
      case Mfa => this.(factors := table)
      case System => this.(secrets := table)
      case RunSecret => this.(inputs := table)
    }

    predicate Valid() {
      credentials.Valid() && factors.Valid() && secrets.Valid() && inputs.Valid()
    }
  }

  const BATCH_SIZE: nat := 100

  // ---------------------------------------------------------------- a batch

  function OutdatedKeys(index: seq<string>, rows: map<string, Record>, target: int): seq<string>
    requires forall k | k in index :: k in rows
  {
    if index == [] then []
    else if rows[index[0]].version != target then [index[0]] + OutdatedKeys(index[1..], rows, target)
    else OutdatedKeys(index[1..], rows, target)
  }

  lemma {:induction false} OutdatedMembers(index: seq<string>, rows: map<string, Record>, target: int)
    requires forall k | k in index :: k in rows
    ensures forall k :: k in OutdatedKeys(index, rows, target) <==> k in index && rows[k].version != target
  {
    if index != [] {
      OutdatedMembers(index[1..], rows, target);
      assert index == [index[0]] + index[1..];
    }
  }

  function Outdated(t: Table, target: int): seq<string>
    requires t.Valid()
  {
    OutdatedKeys(t.index, t.rows, target)
  }

  /** The first kind that still has outdated records; the last kind when none has. */
  function BatchKind(v: Vault, target: int): Kind
    requires v.Valid()
  {
    if Outdated(v.credentials, target) != [] then Credential
    else if Outdated(v.factors, target) != [] then Mfa
    else if Outdated(v.secrets, target) != [] then System
    else RunSecret
  }

  function Batch(t: Table, target: int): (keys: seq<string>)
    requires t.Valid()
    ensures forall k | k in keys :: k in t.rows && t.rows[k].version != target
  {
    var keys := Outdated(t, target);
    OutdatedMembers(t.index, t.rows, target);
    var batch := keys[..if |keys| < BATCH_SIZE then |keys| else BATCH_SIZE];
    assert forall k | k in batch :: k in keys;
    batch
  }

  /** Re-encrypting the keys of a batch; None when any of them cannot be read or encrypted. */
  function Reencrypted(
    lib: Library, ring: Keyring, rows: map<string, Record>, keys: seq<string>, target: int, nonce: nat -> Bytes
  ): (r: Option<map<string, Record>>)
    requires forall k | k in keys :: k in rows
    ensures r.Some? ==> r.value.Keys == rows.Keys
  {
    if keys == [] then Some(rows)
    else
      var last := |keys| - 1;
      var before := Reencrypted(lib, ring, rows, keys[..last], target, nonce);
      var record := Reencrypt(lib, ring, rows[keys[last]], target, nonce(last));
      if before.None? || record.None? then None else Some(before.value[keys[last] := record.value])
  }

  // ---------------------------------------------------------------- the job

  datatype JobState = Pending | Running | Succeeded | Failed

  datatype Job = Job(target: int, state: JobState, leaseExpires: int, processed: nat, remaining: nat)

  predicate Claimable(job: Job, now: int) {
    job.state.Pending? || (job.state.Running? && job.leaseExpires <= now)
  }

  /** The records of all kinds off the target version. */
  function Remaining(v: Vault, target: int): nat
    requires v.Valid()
  {
    |Outdated(v.credentials, target)| + |Outdated(v.factors, target)| +
    |Outdated(v.secrets, target)| + |Outdated(v.inputs, target)|
  }

  /** The transaction of a batch; None when it raises and rolls back. */
  function RotatedVault(lib: Library, ring: Keyring, v: Vault, target: int, nonce: nat -> Bytes): Option<Vault>
    requires v.Valid()
  {
    var kind := BatchKind(v, target);
    var t := v.Of(kind);
    if target != ring.primary then None
    else
      match Reencrypted(lib, ring, t.rows, Batch(t, target), target, nonce)
      case None => None
      case Some(rows) => Some(v.With(kind, t.(rows := rows)))
  }

  datatype Rotation = Rotation(vault: Vault, job: Job)

  /** `process_rotation_batch`: claim, rotate one batch and account for it, or record the
      failure in a transaction of its own. */
  function ProcessBatch(lib: Library, ring: Keyring, r: Rotation, now: int, nonce: nat -> Bytes): Rotation
    requires r.vault.Valid()
  {
    if !Claimable(r.job, now) then r
    else
      match RotatedVault(lib, ring, r.vault, r.job.target, nonce)
      case None => r.(job := r.job.(state := Failed, remaining := Remaining(r.vault, r.job.target)))
      case Some(v) =>
        RotatedValid(lib, ring, r.vault, r.job.target, nonce);
        var left := Remaining(v, r.job.target);
        Rotation(v, r.job.(
          state := if left == 0 then Succeeded else Pending,
          processed := r.job.processed + |Batch(r.vault.Of(BatchKind(r.vault, r.job.target)), r.job.target)|,
          remaining := left))
  }

  lemma RotatedValid(lib: Library, ring: Keyring, v: Vault, target: int, nonce: nat -> Bytes)
    requires v.Valid()
    ensures var c := RotatedVault(lib, ring, v, target, nonce); c.Some? ==> c.value.Valid()
  {
  }

  // ---------------------------------------------------------------- meaning is preserved

  /** The same records in the same tables, each still reading as before. */
  predicate SameRows(lib: Library, ring: Keyring, a: map<string, Record>, b: map<string, Record>) {
    a.Keys == b.Keys &&
    forall k | k in a :: Meaning(lib, ring, b[k]) == Meaning(lib, ring, a[k]) && SameRecord(a[k], b[k])
  }

  /** Only the envelope and its version may differ. */
  predicate SameRecord(a: Record, b: Record) {
    b.kind == a.kind && b.id == a.id && b.sub == a.sub
  }

  predicate SameMeaning(lib: Library, ring: Keyring, a: Vault, b: Vault) {
    forall kind: Kind :: a.Of(kind).index == b.Of(kind).index && SameRows(lib, ring, a.Of(kind).rows, b.Of(kind).rows)
  }

  lemma {:induction false} ReencryptedKeepsMeaning(
    lib: Library, ring: Keyring, rows: map<string, Record>, keys: seq<string>, nonce: nat -> Bytes)
    requires Lawful(lib) && ring.Valid() && forall k | k in keys :: k in rows
    ensures var c := Reencrypted(lib, ring, rows, keys, ring.primary, nonce);
      c.Some? ==> SameRows(lib, ring, rows, c.value)
  {
    if keys != [] {
      var last := |keys| - 1;
      ReencryptedKeepsMeaning(lib, ring, rows, keys[..last], nonce);
      var record := rows[keys[last]];
      if Reencrypt(lib, ring, record, ring.primary, nonce(last)).Some? {
        ReencryptKeepsMeaningIff(lib, ring, record, ring.primary, nonce(last));
      }
    }
  }

  lemma WithKeepsMeaning(lib: Library, ring: Keyring, v: Vault, kind: Kind, rows: map<string, Record>)
    requires SameRows(lib, ring, v.Of(kind).rows, rows)
    ensures SameMeaning(lib, ring, v, v.With(kind, v.Of(kind).(rows := rows)))
  {
    hide Meaning;
    var v' := v.With(kind, v.Of(kind).(rows := rows));
    forall k: Kind ensures v.Of(k).index == v'.Of(k).index && SameRows(lib, ring, v.Of(k).rows, v'.Of(k).rows) {
      assert k != kind ==> v'.Of(k) == v.Of(k);
    }
  }

  lemma VaultKeepsMeaning(lib: Library, ring: Keyring, v: Vault, target: int, nonce: nat -> Bytes)
    requires Lawful(lib) && ring.Valid() && v.Valid()
    ensures var c := RotatedVault(lib, ring, v, target, nonce); c.Some? ==> SameMeaning(lib, ring, v, c.value)
  {
    hide Lawful, Reencrypted, Batch, BatchKind, SameRows, SameMeaning;
    var kind := BatchKind(v, target);
    var t := v.Of(kind);
    if target == ring.primary {
      ReencryptedKeepsMeaning(lib, ring, t.rows, Batch(t, target), nonce);
      var c := Reencrypted(lib, ring, t.rows, Batch(t, target), target, nonce);
      if c.Some? {
        WithKeepsMeaning(lib, ring, v, kind, c.value);
      }
    }
  }

  lemma BatchKeepsMeaning(lib: Library, ring: Keyring, r: Rotation, now: int, nonce: nat -> Bytes)
    requires Lawful(lib) && ring.Valid() && r.vault.Valid()
    ensures var r' := ProcessBatch(lib, ring, r, now, nonce);
      && r'.vault.Valid() && SameMeaning(lib, ring, r.vault, r'.vault)
      && (r'.job.state.Failed? ==> r'.vault == r.vault)
  {
    hide Lawful, RotatedVault, SameRows, Remaining;
    RotatedValid(lib, ring, r.vault, r.job.target, nonce);
    VaultKeepsMeaning(lib, ring, r.vault, r.job.target, nonce);
    SameRowsReflexive(lib, ring);
  }

  lemma SameRowsReflexive(lib: Library, ring: Keyring)
    ensures forall rows :: SameRows(lib, ring, rows, rows)
  {
  }

  /** One attempt of some job: the job, the keyring then configured, the clock and the nonces. */
  datatype Attempt = Attempt(job: Job, ring: Keyring, now: int, nonce: nat -> Bytes)

  function Attempts(lib: Library, v: Vault, attempts: seq<Attempt>): Vault
    requires v.Valid()
    decreases |attempts|
  {
    if attempts == [] then v
    else
      var a := attempts[0];
      RotatedValid(lib, a.ring, v, a.job.target, a.nonce);
      Attempts(lib, ProcessBatch(lib, a.ring, Rotation(v, a.job), a.now, a.nonce).vault, attempts[1..])
  }

  /** A configured keyring: some of the keys ever issued, each under its own version. */
  predicate Issued(keys: map<int, Key>, ring: Keyring) {
    ring.Valid() && forall v | v in ring.keys :: v in keys && ring.keys[v] == keys[v]
  }

  /** Recorded key versions are at least one, as the tables require. */
  predicate Recorded(rows: map<string, Record>) {
    forall k | k in rows :: rows[k].version >= 1
  }

  predicate AllRecorded(v: Vault) {
    forall kind: Kind :: Recorded(v.Of(kind).rows)
  }

  /** What a record means under a recorded version does not depend on the primary, and what a
      smaller keyring can read means the same to it. */
  lemma MeaningUnderMoreKeys(lib: Library, small: Keyring, large: Keyring, record: Record)
    requires record.version >= 1 && forall v | v in small.keys :: v in large.keys && large.keys[v] == small.keys[v]
    ensures Meaning(lib, small, record).Some? ==> Meaning(lib, small, record) == Meaning(lib, large, record)
    ensures small.keys == large.keys ==> Meaning(lib, small, record) == Meaning(lib, large, record)
  {
  }

  /** Re-encryption under the keyring of the day keeps the meaning under all keys ever issued. */
  lemma ReencryptKeepsIssuedMeaning(
    lib: Library, ring: Keyring, full: Keyring, record: Record, nonce: Bytes)
    requires Lawful(lib) && Issued(full.keys, ring) && record.version >= 1
    ensures var c := Reencrypt(lib, ring, record, ring.primary, nonce);
      c.Some? ==>
        Meaning(lib, full, c.value) == Meaning(lib, full, record) && c.value.version >= 1 && SameRecord(record, c.value)
  {
    var c := Reencrypt(lib, ring, record, ring.primary, nonce);
    if c.Some? {
      ReencryptKeepsMeaningIff(lib, ring, record, ring.primary, nonce);
      MeaningUnderMoreKeys(lib, ring, full, record);
      MeaningUnderMoreKeys(lib, ring, full, c.value);
    }
  }

  lemma {:induction false} ReencryptedKeepsIssuedMeaning(
    lib: Library, ring: Keyring, full: Keyring, rows: map<string, Record>, keys: seq<string>, nonce: nat -> Bytes)
    requires Lawful(lib) && Issued(full.keys, ring) && Recorded(rows) && forall k | k in keys :: k in rows
    ensures var c := Reencrypted(lib, ring, rows, keys, ring.primary, nonce);
      c.Some? ==> SameRows(lib, full, rows, c.value) && Recorded(c.value)
  {
    hide Lawful, Meaning, Reencrypt, Issued;
    if keys != [] {
      var last := |keys| - 1;
      ReencryptedKeepsIssuedMeaning(lib, ring, full, rows, keys[..last], nonce);
      ReencryptKeepsIssuedMeaning(lib, ring, full, rows[keys[last]], nonce(last));
    }
  }

  lemma BatchKeepsIssuedMeaning(lib: Library, full: Keyring, v: Vault, a: Attempt)
    requires Lawful(lib) && Issued(full.keys, a.ring) && v.Valid() && AllRecorded(v)
    ensures var r := ProcessBatch(lib, a.ring, Rotation(v, a.job), a.now, a.nonce);
      && r.vault.Valid() && SameMeaning(lib, full, v, r.vault) && AllRecorded(r.vault)
      && (r.job.state.Failed? ==> r.vault == v)
  {
    hide Lawful, Reencrypted, Batch, BatchKind, SameRows, Recorded, Remaining, Issued;
    var target := a.job.target;
    RotatedValid(lib, a.ring, v, target, a.nonce);
    SameRowsReflexive(lib, full);
    var kind := BatchKind(v, target);
    var t := v.Of(kind);
    assert Recorded(t.rows);
    var c := Reencrypted(lib, a.ring, t.rows, Batch(t, target), target, a.nonce);
    if target == a.ring.primary && c.Some? {
      ReencryptedKeepsIssuedMeaning(lib, a.ring, full, t.rows, Batch(t, target), a.nonce);
      WithKeepsMeaning(lib, full, v, kind, c.value);
      WithRecorded(v, kind, c.value);
    }
  }

  lemma WithRecorded(v: Vault, kind: Kind, rows: map<string, Record>)
    requires AllRecorded(v) && Recorded(rows)
    ensures AllRecorded(v.With(kind, v.Of(kind).(rows := rows)))
  {
    hide Recorded;
    var v' := v.With(kind, v.Of(kind).(rows := rows));
    forall k: Kind ensures Recorded(v'.Of(k).rows) {
      assert Recorded(v.Of(k).rows);
    }
  }

  /** Across any sequence of attempts of any jobs, successful or failed, under keyrings whose
      primary changes and whose keys come and go, every record still decrypts, under its own
      context and recorded version, to what it held at first. */
  lemma {:induction false} RotationKeepsMeaning(lib: Library, full: Keyring, v: Vault, attempts: seq<Attempt>)
    requires Lawful(lib) && v.Valid() && AllRecorded(v)
    requires forall i | 0 <= i < |attempts| :: Issued(full.keys, attempts[i].ring)
    ensures SameMeaning(lib, full, v, Attempts(lib, v, attempts)) && AllRecorded(Attempts(lib, v, attempts))
    decreases |attempts|
  {
    if attempts != [] {
      var a := attempts[0];
      var r := ProcessBatch(lib, a.ring, Rotation(v, a.job), a.now, a.nonce);
      BatchKeepsIssuedMeaning(lib, full, v, a);
      hide Lawful, Meaning, Issued, Recorded, ProcessBatch;
      RotationKeepsMeaning(lib, full, r.vault, attempts[1..]);
    }
  }

  /** Decrypting the envelope of `b` under its version gives what that of `a` gives under its own:
      the same bytes, or for a credential text that parses to the same fields. */
  predicate SamePlaintext(lib: Library, ring: Keyring, a: Record, b: Record, aad: string) {
    var was, now := Decrypt(lib, ring, a.payload, aad, a.version), Decrypt(lib, ring, b.payload, aad, b.version);
    if a.kind != Credential then now == was
    else
      (was.Some? && lib.parse(was.value).Some? <==> now.Some? && lib.parse(now.value).Some?) &&
      (was.Some? && now.Some? && lib.parse(was.value).Some? ==> lib.parse(now.value) == lib.parse(was.value))
  }

  lemma SameMeaningPlaintext(lib: Library, ring: Keyring, a: Record, b: Record)
    requires Lawful(lib) && a.version >= 1 && b.version >= 1
    requires Meaning(lib, ring, b) == Meaning(lib, ring, a) && SameRecord(a, b) && Context(a).Some?
    ensures Context(b) == Context(a) && SamePlaintext(lib, ring, a, b, Context(a).value)
  {
    if Meaning(lib, ring, a).Some? {
      MeaningExact(lib, ring, a, Meaning(lib, ring, a).value);
      MeaningExact(lib, ring, b, Meaning(lib, ring, a).value);
    }
  }

  /** So no rotation, nor any sequence of them, loses or changes a byte of any secret. */
  lemma RotationKeepsPlaintexts(lib: Library, full: Keyring, v: Vault, attempts: seq<Attempt>, kind: Kind, k: string)
    requires Lawful(lib) && v.Valid() && AllRecorded(v)
    requires forall i | 0 <= i < |attempts| :: Issued(full.keys, attempts[i].ring)
    requires k in v.Of(kind).rows && Context(v.Of(kind).rows[k]).Some?
    ensures var v' := Attempts(lib, v, attempts);
      && k in v'.Of(kind).rows && SameRecord(v.Of(kind).rows[k], v'.Of(kind).rows[k])
      && SamePlaintext(lib, full, v.Of(kind).rows[k], v'.Of(kind).rows[k], Context(v.Of(kind).rows[k]).value)
  {
    hide Meaning, Attempts, SamePlaintext;
    RotationKeepsMeaning(lib, full, v, attempts);
    var a, b := v.Of(kind).rows, Attempts(lib, v, attempts).Of(kind).rows;
    assert SameRows(lib, full, a, b) && Recorded(a) && Recorded(b);
    SameMeaningPlaintext(lib, full, a[k], b[k]);
  }

  // ---------------------------------------------------------------- how long a job takes

  /** The batches needed for `n` records. */
  function Chunks(n: nat): nat {
    (n + BATCH_SIZE - 1) / BATCH_SIZE
  }

  function Batches(v: Vault, target: int): nat
    requires v.Valid()
  {
    Chunks(|Outdated(v.credentials, target)|) + Chunks(|Outdated(v.factors, target)|) +
    Chunks(|Outdated(v.secrets, target)|) + Chunks(|Outdated(v.inputs, target)|)
  }

  /** Every record the rotation has still to move can be read. */
  predicate Readable(lib: Library, ring: Keyring, t: Table) {
    forall k | k in t.rows && t.rows[k].version != ring.primary :: Meaning(lib, ring, t.rows[k]).Some?
  }

  predicate AllReadable(lib: Library, ring: Keyring, v: Vault) {
    forall kind: Kind :: Readable(lib, ring, v.Of(kind))
  }

  lemma {:induction false} ReencryptedVersions(
    lib: Library, ring: Keyring, rows: map<string, Record>, keys: seq<string>, target: int, nonce: nat -> Bytes)
    requires forall k | k in keys :: k in rows
    ensures var c := Reencrypted(lib, ring, rows, keys, target, nonce);
      c.Some? ==> forall k | k in rows ::
        (k in keys ==> c.value[k].version == target) && (k !in keys ==> c.value[k] == rows[k])
  {
    if keys != [] {
      var last := |keys| - 1;
      ReencryptedVersions(lib, ring, rows, keys[..last], target, nonce);
      assert keys == keys[..last] + [keys[last]];
    }
  }

  lemma {:induction false} ReencryptedSucceedsIff(
    lib: Library, ring: Keyring, rows: map<string, Record>, keys: seq<string>, nonce: nat -> Bytes)
    requires ring.Valid() && forall k | k in keys :: k in rows
    ensures Reencrypted(lib, ring, rows, keys, ring.primary, nonce).Some? <==>
            forall k | k in keys :: Meaning(lib, ring, rows[k]).Some?
  {
    hide Meaning, Reencrypt;
    if keys != [] {
      var last := |keys| - 1;
      ReencryptedSucceedsIff(lib, ring, rows, keys[..last], nonce);
      ReencryptSucceedsIff(lib, ring, rows[keys[last]], nonce(last));
      assert keys == keys[..last] + [keys[last]];
    }
  }

  /** Bringing the first `b` outdated rows up to date leaves the rest, in order. */
  lemma {:induction false} OutdatedAfter(
    index: seq<string>, rows: map<string, Record>, rows': map<string, Record>, target: int, b: nat)
    requires forall i, j | 0 <= i < j < |index| :: index[i] != index[j]
    requires forall k | k in index :: k in rows && k in rows'
    requires b <= |OutdatedKeys(index, rows, target)|
    requires forall k | k in index ::
      rows'[k].version == if k in OutdatedKeys(index, rows, target)[..b] then target else rows[k].version
    ensures OutdatedKeys(index, rows', target) == OutdatedKeys(index, rows, target)[b..]
  {
    if index != [] {
      var keys, rest := OutdatedKeys(index, rows, target), OutdatedKeys(index[1..], rows, target);
      if rows[index[0]].version != target {
        assert keys == [index[0]] + rest;
        if b > 0 {
          assert keys[..b] == [index[0]] + rest[..b - 1];
          OutdatedAfter(index[1..], rows, rows', target, b - 1);
        } else {
          OutdatedAfter(index[1..], rows, rows', target, 0);
        }
      } else {
        OutdatedAfter(index[1..], rows, rows', target, b);
      }
    }
  }

  /** A batch that succeeds removes its records from the outdated ones, and leaves the others
      readable exactly when all were. */
  lemma BatchShrinks(lib: Library, ring: Keyring, t: Table, nonce: nat -> Bytes)
    requires ring.Valid() && t.Valid()
    requires Reencrypted(lib, ring, t.rows, Batch(t, ring.primary), ring.primary, nonce).Some?
    ensures var t' := t.(rows := Reencrypted(lib, ring, t.rows, Batch(t, ring.primary), ring.primary, nonce).value);
      && t'.Valid()
      && Outdated(t', ring.primary) == Outdated(t, ring.primary)[|Batch(t, ring.primary)|..]
      && (Readable(lib, ring, t') <==> Readable(lib, ring, t))
  {
    hide Meaning, Reencrypt;
    var batch := Batch(t, ring.primary);
    ReencryptedSucceedsIff(lib, ring, t.rows, batch, nonce);
    ReencryptedVersions(lib, ring, t.rows, batch, ring.primary, nonce);
    var rows' := Reencrypted(lib, ring, t.rows, batch, ring.primary, nonce).value;
    OutdatedAfter(t.index, t.rows, rows', ring.primary, |batch|);
  }

  lemma ChunksShrink(n: nat, b: nat)
    requires b == if n < BATCH_SIZE then n else BATCH_SIZE
    ensures n > 0 ==> Chunks(n - b) + 1 == Chunks(n)
  {
  }

  lemma VaultShrinks(lib: Library, ring: Keyring, v: Vault, nonce: nat -> Bytes)
    requires ring.Valid() && v.Valid() && RotatedVault(lib, ring, v, ring.primary, nonce).Some?
    ensures var v' := RotatedVault(lib, ring, v, ring.primary, nonce).value;
      var b := |Batch(v.Of(BatchKind(v, ring.primary)), ring.primary)|;
      && v'.Valid() && (AllReadable(lib, ring, v') <==> AllReadable(lib, ring, v))
      && Remaining(v', ring.primary) + b == Remaining(v, ring.primary)
      && (Remaining(v, ring.primary) > 0 ==> Batches(v', ring.primary) + 1 == Batches(v, ring.primary))
      && (Remaining(v, ring.primary) == 0 ==> b == 0 && Batches(v, ring.primary) == 0)
  {
    hide Readable, Reencrypted, Outdated, Remaining, Batches, BatchKind, Chunks;
    var kind := BatchKind(v, ring.primary);
    var t := v.Of(kind);
    BatchShrinks(lib, ring, t, nonce);
    BatchKindFirst(v, ring.primary);
    ChunksShrink(|Outdated(t, ring.primary)|, |Batch(t, ring.primary)|);
    var rows := Reencrypted(lib, ring, t.rows, Batch(t, ring.primary), ring.primary, nonce).value;
    WithCounts(v, kind, t.(rows := rows), ring.primary);
    WithReadable(lib, ring, v, kind, t.(rows := rows));
  }

  lemma WithReadable(lib: Library, ring: Keyring, v: Vault, kind: Kind, t: Table)
    requires Readable(lib, ring, t) <==> Readable(lib, ring, v.Of(kind))
    ensures AllReadable(lib, ring, v.With(kind, t)) <==> AllReadable(lib, ring, v)
  {
    hide Readable;
    forall k: Kind ensures Readable(lib, ring, v.With(kind, t).Of(k)) <==> Readable(lib, ring, v.Of(k)) {
      assert k != kind ==> v.With(kind, t).Of(k) == v.Of(k);
    }
  }

  /** If every outdated record can be read the batch succeeds. */
  lemma ReadableRotates(lib: Library, ring: Keyring, v: Vault, nonce: nat -> Bytes)
    requires ring.Valid() && v.Valid() && AllReadable(lib, ring, v)
    ensures RotatedVault(lib, ring, v, ring.primary, nonce).Some?
  {
    hide Meaning, Outdated, BatchKind;
    var t := v.Of(BatchKind(v, ring.primary));
    assert Readable(lib, ring, t);
    ReencryptedSucceedsIff(lib, ring, t.rows, Batch(t, ring.primary), nonce);
  }

  lemma BatchKindFirst(v: Vault, target: int)
    requires v.Valid()
    ensures Outdated(v.Of(BatchKind(v, target)), target) == [] <==> Remaining(v, target) == 0
    ensures Batches(v, target) == 0 <==> Remaining(v, target) == 0
  {
  }

  lemma WithCounts(v: Vault, kind: Kind, t: Table, target: int)
    requires v.Valid() && t.Valid()
    ensures v.With(kind, t).Valid()
    ensures Remaining(v.With(kind, t), target) + |Outdated(v.Of(kind), target)| ==
            Remaining(v, target) + |Outdated(t, target)|
    ensures Batches(v.With(kind, t), target) + Chunks(|Outdated(v.Of(kind), target)|) ==
            Batches(v, target) + Chunks(|Outdated(t, target)|)
  {
  }

  datatype Draw = Draw(now: int, nonce: nat -> Bytes)

  /** The polls of the worker loop, one batch each. */
  function Poll(lib: Library, ring: Keyring, r: Rotation, draws: seq<Draw>): Rotation
    requires r.vault.Valid()
    decreases |draws|
  {
    if draws == [] then r
    else
      RotatedValid(lib, ring, r.vault, r.job.target, draws[0].nonce);
      Poll(lib, ring, ProcessBatch(lib, ring, r, draws[0].now, draws[0].nonce), draws[1..])
  }

  /** A pending job whose counters are right, over records that can all be read. */
  predicate Accounted(lib: Library, ring: Keyring, r: Rotation, total: nat) {
    && r.vault.Valid() && AllReadable(lib, ring, r.vault)
    && r.job.target == ring.primary && r.job.remaining == Remaining(r.vault, ring.primary)
    && r.job.processed + r.job.remaining == total
    && (r.job.state.Succeeded? || r.job.state.Pending?)
    && (r.job.state.Succeeded? ==> r.job.remaining == 0)
  }

  lemma PollStep(lib: Library, ring: Keyring, r: Rotation, total: nat, draw: Draw)
    requires ring.Valid() && Accounted(lib, ring, r, total)
    ensures var r' := ProcessBatch(lib, ring, r, draw.now, draw.nonce);
      && Accounted(lib, ring, r', total)
      && (r.job.state.Succeeded? ==> r' == r)
      && (r.job.state.Pending? ==>
            && (r'.job.state.Succeeded? <==> Batches(r.vault, ring.primary) <= 1)
            && (r'.job.state.Succeeded? <==> Remaining(r'.vault, ring.primary) == 0)
            && (Batches(r.vault, ring.primary) > 0 ==>
                  Batches(r'.vault, ring.primary) + 1 == Batches(r.vault, ring.primary)))
  {
    hide Readable, Meaning, Outdated, BatchKind, Batch, AllReadable;
    ReadableRotates(lib, ring, r.vault, draw.nonce);
    VaultShrinks(lib, ring, r.vault, draw.nonce);
    var r' := ProcessBatch(lib, ring, r, draw.now, draw.nonce);
    BatchKindFirst(r'.vault, ring.primary);
    BatchKindFirst(r.vault, ring.primary);
  }

  function Needed(v: Vault, target: int): nat
    requires v.Valid()
  {
    if Batches(v, target) == 0 then 1 else Batches(v, target)
  }

  /** With no other writer, a job succeeds after exactly max(1, sum of ceil(n/100)) batches
      and not before, and at every moment processed and remaining add up to the first total. */
  lemma {:induction false} RotationTerminates(lib: Library, ring: Keyring, r: Rotation, total: nat, draws: seq<Draw>)
    requires ring.Valid() && Accounted(lib, ring, r, total) && r.job.state.Pending?
    ensures var r' := Poll(lib, ring, r, draws);
      && Accounted(lib, ring, r', total)
      && (r'.job.state.Succeeded? <==> |draws| >= Needed(r.vault, ring.primary))
      && (draws != [] ==> (r'.job.state.Succeeded? <==> Remaining(r'.vault, ring.primary) == 0))
    decreases |draws|
  {
    hide Accounted, Batches;
    if draws != [] {
      AccountedValid(lib, ring, r, total);
      var r' := ProcessBatch(lib, ring, r, draws[0].now, draws[0].nonce);
      PollStep(lib, ring, r, total, draws[0]);
      AccountedValid(lib, ring, r', total);
      if r'.job.state.Succeeded? {
        PollDone(lib, ring, r', draws[1..]);
      } else {
        RotationTerminates(lib, ring, r', total, draws[1..]);
      }
    }
  }

  lemma AccountedValid(lib: Library, ring: Keyring, r: Rotation, total: nat)
    requires Accounted(lib, ring, r, total)
    ensures r.vault.Valid() && (r.job.state.Succeeded? || r.job.state.Pending?)
    ensures r.job.remaining == Remaining(r.vault, ring.primary)
  {
  }

  /** A job that has ended stays as it is. */
  lemma {:induction false} PollDone(lib: Library, ring: Keyring, r: Rotation, draws: seq<Draw>)
    requires r.vault.Valid() && (r.job.state.Succeeded? || r.job.state.Failed?)
    ensures Poll(lib, ring, r, draws) == r
    decreases |draws|
  {
    if draws != [] {
      PollDone(lib, ring, r, draws[1..]);
    }
  }

  /** Given the batches it needs, a job to the primary version succeeds exactly when every
      outdated record can be read, and otherwise ends FAILED. */
  lemma {:induction false} RotationFailsIff(lib: Library, ring: Keyring, r: Rotation, draws: seq<Draw>)
    requires ring.Valid() && r.vault.Valid() && r.job.target == ring.primary && r.job.state.Pending?
    requires |draws| >= Needed(r.vault, ring.primary)
    ensures var end := Poll(lib, ring, r, draws).job.state;
      (end.Succeeded? <==> AllReadable(lib, ring, r.vault)) && (end.Failed? <==> !AllReadable(lib, ring, r.vault))
    decreases |draws|
  {
    hide AllReadable, Batches, RotatedVault, BatchKind, Batch, Outdated;
    var draw := draws[0];
    var r' := ProcessBatch(lib, ring, r, draw.now, draw.nonce);
    RotatedValid(lib, ring, r.vault, ring.primary, draw.nonce);
    BatchKindFirst(r.vault, ring.primary);
    if RotatedVault(lib, ring, r.vault, ring.primary, draw.nonce).Some? {
      VaultShrinks(lib, ring, r.vault, draw.nonce);
      BatchKindFirst(r'.vault, ring.primary);
      if r'.job.state.Succeeded? {
        NothingOutdated(lib, ring, r'.vault);
        PollDone(lib, ring, r', draws[1..]);
      } else {
        RotationFailsIff(lib, ring, r', draws[1..]);
      }
    } else {
      if AllReadable(lib, ring, r.vault) {
        ReadableRotates(lib, ring, r.vault, draw.nonce);
      }
      PollDone(lib, ring, r', draws[1..]);
    }
  }

  lemma NothingOutdated(lib: Library, ring: Keyring, v: Vault)
    requires v.Valid() && Remaining(v, ring.primary) == 0
    ensures AllReadable(lib, ring, v)
  {
    forall kind: Kind ensures Readable(lib, ring, v.Of(kind)) {
      var t := v.Of(kind);
      OutdatedMembers(t.index, t.rows, ring.primary);
      assert Outdated(t, ring.primary) == [];
    }
  }

  /** The job `request_rotation` creates. */
  function Requested(ring: Keyring, v: Vault): Job
    requires v.Valid()
  {
    Job(ring.primary, Pending, 0, 0, Remaining(v, ring.primary))
  }

  lemma RequestedJobTerminates(lib: Library, ring: Keyring, v: Vault, draws: seq<Draw>)
    requires ring.Valid() && v.Valid() && AllReadable(lib, ring, v) && draws != []
    ensures var r' := Poll(lib, ring, Rotation(v, Requested(ring, v)), draws);
      && r'.vault.Valid()
      && r'.job.processed + r'.job.remaining == Remaining(v, ring.primary)
      && r'.job.remaining == Remaining(r'.vault, ring.primary)
      && (r'.job.state.Succeeded? <==> |draws| >= Needed(v, ring.primary))
      && (r'.job.state.Succeeded? <==> r'.job.remaining == 0)
  {
    RotationTerminates(lib, ring, Rotation(v, Requested(ring, v)), Remaining(v, ring.primary), draws);
  }

  /** A job is taken exactly when it is pending, or running under a lease that has run out. A job
      taken for another version than the primary fails and changes no envelope; every job taken
      ends with its remaining count right. */
  lemma JobTakenIff(lib: Library, ring: Keyring, r: Rotation, now: int, nonce: nat -> Bytes)
    requires r.vault.Valid()
    ensures var r' := ProcessBatch(lib, ring, r, now, nonce);
      var taken := r.job.state == Pending || (r.job.state == Running && r.job.leaseExpires <= now);
      && (!taken ==> r' == r)
      && (taken ==>
            && r'.job.target == r.job.target && r'.job.state in {JobState.Pending, JobState.Succeeded, JobState.Failed}
            && r'.vault.Valid() && r'.job.remaining == Remaining(r'.vault, r.job.target)
            && (r'.job.state == Succeeded ==> r'.job.remaining == 0)
            && (r'.job.state == Pending ==> r'.job.remaining > 0))
      && (taken && r.job.target != ring.primary ==>
            r'.job.state == Failed && r'.vault == r.vault && r'.job.processed == r.job.processed)
  {
    RotatedValid(lib, ring, r.vault, r.job.target, nonce);
    hide Remaining, Batch, BatchKind, Reencrypted;
  }

  // ---------------------------------------------------------------- the service as it runs

  /** The outdated keys from position `i` of the index on. */
  function OutdatedFrom(t: Table, target: int, i: nat): seq<string>
    requires t.Valid() && i <= |t.index|
  {
    OutdatedKeys(t.index[i..], t.rows, target)
  }

  lemma OutdatedStep(t: Table, target: int, i: nat)
    requires t.Valid() && i < |t.index|
    ensures OutdatedFrom(t, target, i) ==
      (if t.rows[t.index[i]].version != target then [t.index[i]] else []) + OutdatedFrom(t, target, i + 1)
  {
  }

  lemma OutdatedEnds(t: Table, target: int)
    requires t.Valid()
    ensures OutdatedFrom(t, target, 0) == Outdated(t, target) && OutdatedFrom(t, target, |t.index|) == []
  {
  }

  class Rotator {
    const lib: Library
    const ring: Keyring
    var vault: Vault
    var job: Job

    constructor (lib: Library, ring: Keyring, vault: Vault, job: Job)
      ensures this.lib == lib && this.ring == ring && View() == Rotation(vault, job)
    {
      this.lib, this.ring, this.vault, this.job := lib, ring, vault, job;
    }

    function View(): Rotation
      reads this
    {
      Rotation(vault, job)
    }

    /** The batch query of one table: outdated keys in index order, at most a hundred. */
    method LoadTable(t: Table, target: int) returns (keys: seq<string>)
      requires t.Valid()
      ensures keys == Batch(t, target)
    {
      hide Outdated, OutdatedKeys;
      keys := [];
      var i := 0;
      OutdatedEnds(t, target);
      while i < |t.index| && |keys| < BATCH_SIZE
        invariant 0 <= i <= |t.index| && |keys| <= BATCH_SIZE
        invariant Outdated(t, target) == keys + OutdatedFrom(t, target, i)
      {
        OutdatedStep(t, target, i);
        if t.rows[t.index[i]].version != target {
          keys := keys + [t.index[i]];
        }
        i := i + 1;
      }
      assert i < |t.index| ==> keys == Outdated(t, target)[..BATCH_SIZE];
    }

    /** `load_rotation_batch`: the tables in turn, up to the first with anything to rotate. */
    method LoadBatch(target: int) returns (kind: Kind, keys: seq<string>)
      requires vault.Valid()
      ensures kind == BatchKind(vault, target) && keys == Batch(vault.Of(kind), target)
    {
      hide Outdated;
      keys := LoadTable(vault.credentials, target);
      if keys != [] {
        return Credential, keys;
      }
      keys := LoadTable(vault.factors, target);
      if keys != [] {
        return Mfa, keys;
      }
      keys := LoadTable(vault.secrets, target);
      if keys != [] {
        return System, keys;
      }
      keys := LoadTable(vault.inputs, target);
      return RunSecret, keys;
    }

    /** Every record of the batch is re-encrypted before any row is written. */
    method ReencryptBatch(rows: map<string, Record>, keys: seq<string>, target: int, nonce: nat -> Bytes)
      returns (rotated: Option<map<string, Record>>)
      requires forall k | k in keys :: k in rows
      ensures rotated == Reencrypted(lib, ring, rows, keys, target, nonce)
    {
      hide Reencrypt;
      var records: seq<Record> := [];
      for i := 0 to |keys|
        invariant |records| == i
        invariant forall j | 0 <= j < i :: Reencrypt(lib, ring, rows[keys[j]], target, nonce(j)) == Some(records[j])
      {
        var record := Reencrypt(lib, ring, rows[keys[i]], target, nonce(i));
        if record.None? {
          OneFailureFailsAll(lib, ring, rows, keys, target, nonce, i);
          return None;
        }
        records := records + [record.value];
      }
      var table := rows;
      for i := 0 to |keys|
        invariant Reencrypted(lib, ring, rows, keys[..i], target, nonce) == Some(table)
      {
        assert keys[..i + 1][..i] == keys[..i] && keys[..i + 1][i] == keys[i];
        table := table[keys[i] := records[i]];
      }
      assert keys[..|keys|] == keys;
      return Some(table);
    }

    method Process(now: int, nonce: nat -> Bytes)
      requires vault.Valid()
      modifies this
      ensures View() == ProcessBatch(lib, ring, old(View()), now, nonce)
    {
      hide Outdated, Reencrypted, Batch, BatchKind;
      if !Claimable(job, now) {
        return;
      }
      var target := job.target;
      var rotated: Option<Vault> := None;
      var kind, keys := LoadBatch(target);
      if target == ring.primary {
        var rows := ReencryptBatch(vault.Of(kind).rows, keys, target, nonce);
        if rows.Some? {
          rotated := Some(vault.With(kind, vault.Of(kind).(rows := rows.value)));
        }
      }
      RotatedValid(lib, ring, vault, target, nonce);
      match rotated
      case None => job := job.(state := Failed, remaining := Remaining(vault, target));
      case Some(v) =>
        vault := v;
        var left := Remaining(v, target);
        job := job.(
          state := if left == 0 then Succeeded else Pending,
          processed := job.processed + |keys|,
          remaining := left);
    }
  }

  lemma {:induction false} OneFailureFailsAll(
    lib: Library, ring: Keyring, rows: map<string, Record>, keys: seq<string>, target: int, nonce: nat -> Bytes, i: nat)
    requires i < |keys| && forall k | k in keys :: k in rows
    requires Reencrypt(lib, ring, rows[keys[i]], target, nonce(i)).None?
    ensures Reencrypted(lib, ring, rows, keys, target, nonce).None?
    decreases |keys|
  {
    if i < |keys| - 1 {
      OneFailureFailsAll(lib, ring, rows, keys[..|keys| - 1], target, nonce, i);
    }
  }
}
