/**
 Sealing stored credentials: what is stored becomes `v1:` and the base64 text of a nonce and a
 ciphertext, while signatures and equality lookups go on finding the same keys.
 The primitives are parameters with the laws of `Lawful` and no others.
 */
module Sealing {
  import opened Basics
  import opened Options

  type Bytes = seq<byte>

  const SEAL_PREFIX := "v1:"
  const NONCE_LEN := 12

  /** The primitives under one sealing key. */
  datatype Suite = Suite(
    nonce: Bytes -> Bytes,                     // leading bytes of an HMAC of the plaintext
    encrypt: (Bytes, Bytes) -> Bytes,          // authenticated encryption: nonce, plaintext
    decrypt: (Bytes, Bytes) -> Option<Bytes>,
    encode: Bytes -> string,                   // base64
    decode: string -> Option<Bytes>,
    bytes: string -> Bytes,                    // UTF-8
    text: Bytes -> Option<string>)

  ghost predicate Lawful(c: Suite) {
    && (forall p :: |c.nonce(p)| == NONCE_LEN)
    && (forall n, p :: c.encrypt(n, p) != [] && c.decrypt(n, c.encrypt(n, p)) == Some(p))
    && (forall b :: c.decode(c.encode(b)) == Some(b))
    && (forall s :: c.text(c.bytes(s)) == Some(s))
  }

  predicate IsSealed(stored: string) {
    SEAL_PREFIX <= stored
  }

  function Seal(c: Suite, plain: string): string {
    var p := c.bytes(plain);
    var n := c.nonce(p);
    SEAL_PREFIX + c.encode(n + c.encrypt(n, p))
  }

  function Open(c: Suite, stored: string): Option<string> {
    if !IsSealed(stored) then None else
      match c.decode(stored[|SEAL_PREFIX|..])
      case None => None
      case Some(blob) =>
        if |blob| <= NONCE_LEN then None else
          match c.decrypt(blob[..NONCE_LEN], blob[NONCE_LEN..])
          case None => None
          case Some(p) => c.text(p)
  }

  /** What signatures are verified with: a sealed value opened, an unsealed one as it is. */
  function SigningMaterial(key: Option<Suite>, stored: string): Option<string> {
    if !IsSealed(stored) then Some(stored)
    else if key.None? then None
    else Open(key.value, stored)
  }

  /** Opening undoes sealing. */
  lemma SealRoundTrip(c: Suite, plain: string)
    requires Lawful(c)
    ensures IsSealed(Seal(c, plain))
    ensures Open(c, Seal(c, plain)) == Some(plain)
  {
  }

  /** The sealed form: `v1:` and the encoding of twelve bytes of nonce and the ciphertext under it. */
  lemma SealLayout(c: Suite, plain: string)
    requires Lawful(c)
    ensures var p := c.bytes(plain); Seal(c, plain) == "v1:" + c.encode(c.nonce(p) + c.encrypt(c.nonce(p), p))
  {
  }

  /** What opens: the prefix, an encoding of more than twelve bytes, a ciphertext that decrypts, to a text. */
  lemma OpensIff(c: Suite, stored: string, plain: string)
    ensures Open(c, stored) == Some(plain) <==>
      && |stored| >= 3 && stored[..3] == "v1:"
      && exists nonce, sealed, p :: |nonce| == 12 && sealed != [] && c.decode(stored[3..]) == Some(nonce + sealed)
           && c.decrypt(nonce, sealed) == Some(p) && c.text(p) == Some(plain)
  {
    if IsSealed(stored) && c.decode(stored[3..]).Some? && |c.decode(stored[3..]).value| > 12 {
      var blob := c.decode(stored[3..]).value;
      assert blob == blob[..12] + blob[12..];
    }
  }

  lemma SealInjective(c: Suite, a: string, b: string)
    requires Lawful(c) && Seal(c, a) == Seal(c, b)
    ensures a == b
  {
    SealRoundTrip(c, a);
    SealRoundTrip(c, b);
  }

  // ── The key table ─────────────────────────────────────────────────────

  /** A row of `api_keys`; `live` is active and not expired. */
  datatype KeyRow = KeyRow(id: nat, system: string, address: string, stored: string, live: bool)

  function ResealRow(c: Suite, r: KeyRow): KeyRow {
    if IsSealed(r.stored) then r else r.(stored := Seal(c, r.stored))
  }

  /** The table when the first `m` rows have been visited. */
  function Resealed(c: Suite, rows: seq<KeyRow>, m: nat): (t: seq<KeyRow>)
    requires m <= |rows|
    ensures |t| == |rows|
    ensures forall i :: 0 <= i < |rows| ==> t[i] == if i < m then ResealRow(c, rows[i]) else rows[i]
  {
    seq(|rows|, i requires 0 <= i < |rows| => if i < m then ResealRow(c, rows[i]) else rows[i])
  }

  lemma ResealTwice(c: Suite, r: KeyRow)
    requires Lawful(c)
    ensures ResealRow(c, ResealRow(c, r)) == ResealRow(c, r)
    ensures SigningMaterial(Some(c), ResealRow(c, r).stored) == SigningMaterial(Some(c), r.stored)
  {
  }

  // ── Signatures ────────────────────────────────────────────────────────

  /** Does a signature verify under some material?  Stands for the HMAC comparison of one request. */
  type Verifier = string -> bool

  /** The first candidate whose material verifies. */
  function Select(key: Option<Suite>, candidates: seq<KeyRow>, ok: Verifier): Option<KeyRow> {
    if candidates == [] then None
    else match SigningMaterial(key, candidates[0].stored)
      case Some(m) => if ok(m) then Some(candidates[0]) else Select(key, candidates[1..], ok)
      case None => Select(key, candidates[1..], ok)
  }

  /** The first candidate whose material opens and verifies; the ones before it do not open or are rejected. */
  method VerifyRequestSignature(key: Option<Suite>, candidates: seq<KeyRow>, ok: Verifier)
    returns (found: Option<KeyRow>)
    ensures found == Select(key, candidates, ok)
    ensures found == None <==> forall i :: 0 <= i < |candidates| ==>
      var m := SigningMaterial(key, candidates[i].stored); m == None || !ok(m.value)
    ensures found.Some? ==> exists i ::
      && 0 <= i < |candidates| && found == Some(candidates[i])
      && (var m := SigningMaterial(key, candidates[i].stored); m.Some? && ok(m.value))
      && forall j :: 0 <= j < i ==> var m := SigningMaterial(key, candidates[j].stored); m == None || !ok(m.value)
  {
    for i := 0 to |candidates|
      invariant Select(key, candidates, ok) == Select(key, candidates[i..], ok)
      invariant forall j :: 0 <= j < i ==>
        var m := SigningMaterial(key, candidates[j].stored); m == None || !ok(m.value)
    {
      match SigningMaterial(key, candidates[i].stored)
      case None =>
      case Some(m) =>
        if ok(m) {
          return Some(candidates[i]);
        }
    }
    return None;
  }

  /** Which column a query half compares with the identity. */
  datatype Column = Address | System

  predicate Owned(r: KeyRow, col: Column, identity: string) {
    r.live && identity == if col.Address? then r.address else r.system
  }

  function Filter(rows: seq<KeyRow>, col: Column, identity: string): seq<KeyRow> {
    if rows == [] then []
    else if Owned(rows[0], col, identity) then [rows[0]] + Filter(rows[1..], col, identity)
    else Filter(rows[1..], col, identity)
  }

  /** The live keys of an identity: those of the address, then those of the system. */
  function Candidates(rows: seq<KeyRow>, identity: string): seq<KeyRow> {
    if identity == "" then [] else Filter(rows, Address, identity) + Filter(rows, System, identity)
  }

  /** The same rows in the same order, up to sealing. */
  ghost predicate SameKeys(c: Suite, a: seq<KeyRow>, b: seq<KeyRow>) {
    && |a| == |b|
    && forall i :: 0 <= i < |a| ==> b[i] == a[i] || b[i] == ResealRow(c, a[i])
  }

  lemma {:induction false} FilterSame(c: Suite, a: seq<KeyRow>, b: seq<KeyRow>, col: Column, identity: string)
    requires SameKeys(c, a, b)
    ensures SameKeys(c, Filter(a, col, identity), Filter(b, col, identity))
  {
    if a == [] {
    } else {
      FilterSame(c, a[1..], b[1..], col, identity);
    }
  }

  lemma CandidatesSame(c: Suite, a: seq<KeyRow>, b: seq<KeyRow>, identity: string)
    requires SameKeys(c, a, b)
    ensures SameKeys(c, Candidates(a, identity), Candidates(b, identity))
  {
    FilterSame(c, a, b, Address, identity);
    FilterSame(c, a, b, System, identity);
  }

  /** Same verdict, and on success the same row but for its stored form. */
  predicate SameResult(a: Option<KeyRow>, b: Option<KeyRow>) {
    a.Some? == b.Some? && (a.Some? ==> b.value == a.value.(stored := b.value.stored))
  }

  lemma {:induction false} SelectSame(c: Suite, a: seq<KeyRow>, b: seq<KeyRow>, ok: Verifier)
    requires Lawful(c) && SameKeys(c, a, b)
    ensures SameResult(Select(Some(c), a, ok), Select(Some(c), b, ok))
  {
    if a == [] {
    } else {
      ResealTwice(c, a[0]);
      SelectSame(c, a[1..], b[1..], ok);
    }
  }

  /** Every request selects the same key before, after and at every row of a reseal. */
  lemma ResealKeepsSignatures(c: Suite, rows: seq<KeyRow>, m: nat, identity: string, ok: Verifier)
    requires Lawful(c) && m <= |rows|
    ensures SameResult(Select(Some(c), Candidates(rows, identity), ok),
                       Select(Some(c), Candidates(Resealed(c, rows, m), identity), ok))
  {
    CandidatesSame(c, rows, Resealed(c, rows, m), identity);
    SelectSame(c, Candidates(rows, identity), Candidates(Resealed(c, rows, m), identity), ok);
  }

  // ── Equality lookup ───────────────────────────────────────────────────

  predicate Matches(c: Suite, r: KeyRow, hash: string) {
    r.live && (r.stored == Seal(c, hash) || r.stored == hash)
  }

  function LookupHash(c: Suite, rows: seq<KeyRow>, hash: string): Option<KeyRow> {
    if rows == [] then None
    else if Matches(c, rows[0], hash) then Some(rows[0])
    else LookupHash(c, rows[1..], hash)
  }

  /** Sealing a row changes whether a hash finds it exactly when the hash presented is its sealed form. */
  lemma MatchesIff(c: Suite, r: KeyRow, hash: string)
    requires Lawful(c)
    ensures Matches(c, ResealRow(c, r), hash) == Matches(c, r, hash)
      <==> !(r.live && !IsSealed(r.stored) && hash == Seal(c, r.stored))
  {
    SealRoundTrip(c, r.stored);
    SealRoundTrip(c, hash);
    if hash == Seal(c, r.stored) && !IsSealed(r.stored) {
      assert r.stored != hash;
    }
  }

  lemma {:induction false} LookupSame(c: Suite, a: seq<KeyRow>, b: seq<KeyRow>, hash: string)
    requires Lawful(c) && SameKeys(c, a, b)
    requires forall i :: 0 <= i < |a| ==> Matches(c, b[i], hash) == Matches(c, a[i], hash)
    ensures SameResult(LookupHash(c, a, hash), LookupHash(c, b, hash))
  {
    if a == [] {
    } else {
      assert Matches(c, b[0], hash) == Matches(c, a[0], hash);
      LookupSame(c, a[1..], b[1..], hash);
    }
  }

  /** Lookup by a hash that is no row's sealed form finds the same key at every row of a reseal. */
  lemma ResealKeepsLookup(c: Suite, rows: seq<KeyRow>, m: nat, hash: string)
    requires Lawful(c) && m <= |rows|
    requires forall i :: 0 <= i < |rows| && !IsSealed(rows[i].stored) ==> hash != Seal(c, rows[i].stored)
    ensures SameResult(LookupHash(c, rows, hash), LookupHash(c, Resealed(c, rows, m), hash))
  {
    var b := Resealed(c, rows, m);
    forall i | 0 <= i < |rows| ensures Matches(c, b[i], hash) == Matches(c, rows[i], hash) {
      MatchesIff(c, rows[i], hash);
      SealRoundTrip(c, rows[i].stored);
    }
    LookupSame(c, rows, b, hash);
  }

  /** Is the string the sealed form of something unsealed? */
  ghost predicate SealedForm(c: Suite, hash: string) {
    exists plain :: !IsSealed(plain) && hash == Seal(c, plain)
  }

  /** In terms of what a caller can compute: it opens to an unsealed value that seals to it again. */
  lemma SealedFormIff(c: Suite, hash: string)
    requires Lawful(c)
    ensures SealedForm(c, hash) <==>
      Open(c, hash).Some? && !IsSealed(Open(c, hash).value) && hash == Seal(c, Open(c, hash).value)
  {
    if plain :| !IsSealed(plain) && hash == Seal(c, plain) {
      SealRoundTrip(c, plain);
    }
  }

  ghost predicate LookupStable(c: Suite, rows: seq<KeyRow>, hash: string) {
    forall m :: 0 <= m <= |rows| ==> SameResult(LookupHash(c, rows, hash), LookupHash(c, Resealed(c, rows, m), hash))
  }

  /** Lookup by a hash is unaffected by resealing, in every table, exactly when the hash is no sealed form. */
  lemma LookupStableIff(c: Suite, hash: string)
    requires Lawful(c)
    ensures (forall rows :: LookupStable(c, rows, hash)) <==> !SealedForm(c, hash)
  {
    if plain :| !IsSealed(plain) && hash == Seal(c, plain) {
      var r := KeyRow(0, "", "", plain, true);
      SealRoundTrip(c, plain);
      MatchesIff(c, r, hash);
      assert LookupHash(c, [r], hash) == None;
      assert Resealed(c, [r], 1)[0] == ResealRow(c, r);
      assert LookupHash(c, Resealed(c, [r], 1), hash).Some?;
      assert !LookupStable(c, [r], hash);
    } else {
      forall rows ensures LookupStable(c, rows, hash) {
        forall m | 0 <= m <= |rows|
          ensures SameResult(LookupHash(c, rows, hash), LookupHash(c, Resealed(c, rows, m), hash))
        {
          ResealKeepsLookup(c, rows, m, hash);
        }
      }
    }
  }

  // ── The migration ─────────────────────────────────────────────────────

  /** Two rows whose stored values become equal. */
  ghost predicate Clash(c: Suite, rows: seq<KeyRow>) {
    exists i, j :: 0 <= i < |rows| && 0 <= j < |rows| && !IsSealed(rows[i].stored)
      && rows[j].stored == Seal(c, rows[i].stored)
  }

  ghost predicate UniqueHashes(rows: seq<KeyRow>) {
    forall i, j :: 0 <= i < j < |rows| ==> rows[i].stored != rows[j].stored
  }

  function CountSealed(rows: seq<KeyRow>, m: nat): nat
    requires m <= |rows|
  {
    if m == 0 then 0 else CountSealed(rows, m - 1) + if IsSealed(rows[m - 1].stored) then 1 else 0
  }

  /** The update of row `m` breaks uniqueness exactly when some row is stored in its sealed form already. */
  lemma UpdateClashes(c: Suite, rows: seq<KeyRow>, m: nat, j: nat)
    requires Lawful(c) && UniqueHashes(rows) && m < |rows| && j < |rows| && !IsSealed(rows[m].stored)
    ensures Resealed(c, rows, m)[j].stored == Seal(c, rows[m].stored) <==> rows[j].stored == Seal(c, rows[m].stored)
  {
    SealRoundTrip(c, rows[m].stored);
    SealRoundTrip(c, rows[j].stored);
  }

  lemma ResealKeepsUnique(c: Suite, rows: seq<KeyRow>, m: nat)
    requires Lawful(c) && UniqueHashes(rows) && m <= |rows| && !Clash(c, rows)
    ensures UniqueHashes(Resealed(c, rows, m))
  {
    var t := Resealed(c, rows, m);
    forall i, j | 0 <= i < j < |t| ensures t[i].stored != t[j].stored {
      SealRoundTrip(c, rows[i].stored);
      SealRoundTrip(c, rows[j].stored);
    }
  }

  /** Resealing a second time changes nothing and finds every row sealed. */
  lemma ResealIdempotent(c: Suite, rows: seq<KeyRow>)
    requires Lawful(c)
    ensures var t := Resealed(c, rows, |rows|);
      Resealed(c, t, |t|) == t && CountSealed(t, |t|) == |t|
  {
    var t := Resealed(c, rows, |rows|);
    forall i | 0 <= i < |t| ensures IsSealed(t[i].stored) {
      SealRoundTrip(c, rows[i].stored);
    }
    AllSealed(t, |t|);
  }

  lemma {:induction false} AllSealed(rows: seq<KeyRow>, m: nat)
    requires m <= |rows| && forall i :: 0 <= i < |rows| ==> IsSealed(rows[i].stored)
    ensures CountSealed(rows, m) == m
  {
    if m == 0 {
    } else {
      AllSealed(rows, m - 1);
    }
  }

  /** None of the first `m` rows, sealed, is a value stored already. */
  ghost predicate ClashFree(c: Suite, rows: seq<KeyRow>, m: nat)
    requires m <= |rows|
  {
    forall i, j :: 0 <= i < m && 0 <= j < |rows| && !IsSealed(rows[i].stored) ==>
      rows[j].stored != Seal(c, rows[i].stored)
  }

  /** Where the migration stands after `m` rows. */
  ghost predicate Migrated(c: Suite, start: seq<KeyRow>, m: nat, rows: seq<KeyRow>, done: nat, skipped: nat) {
    && m <= |start| && rows == Resealed(c, start, m) && ClashFree(c, start, m)
    && skipped == CountSealed(start, m) && done + skipped == m
  }

  lemma SkipRow(c: Suite, start: seq<KeyRow>, m: nat, rows: seq<KeyRow>, done: nat, skipped: nat)
    requires Migrated(c, start, m, rows, done, skipped) && m < |start| && IsSealed(start[m].stored)
    ensures Migrated(c, start, m + 1, rows, done, skipped + 1)
  {
  }

  /** Sealing row `m` is refused exactly when some row is stored in its sealed form; else it is one row further. */
  lemma SealRow(c: Suite, start: seq<KeyRow>, m: nat, rows: seq<KeyRow>, done: nat, skipped: nat)
    requires Lawful(c) && UniqueHashes(start)
    requires Migrated(c, start, m, rows, done, skipped) && m < |start| && !IsSealed(start[m].stored)
    ensures var sealed := Seal(c, start[m].stored);
      if exists j :: 0 <= j < |rows| && rows[j].stored == sealed then Clash(c, start)
      else Migrated(c, start, m + 1, rows[m := rows[m].(stored := sealed)], done + 1, skipped)
  {
    var sealed := Seal(c, start[m].stored);
    forall j | 0 <= j < |rows| ensures rows[j].stored == sealed <==> start[j].stored == sealed {
      UpdateClashes(c, start, m, j);
    }
  }

  lemma MigrationDone(c: Suite, start: seq<KeyRow>, rows: seq<KeyRow>, done: nat, skipped: nat)
    requires Lawful(c) && UniqueHashes(start) && Migrated(c, start, |start|, rows, done, skipped)
    ensures !Clash(c, start) && rows == Resealed(c, start, |start|) && UniqueHashes(rows)
    ensures skipped == CountSealed(start, |start|) && done + skipped == |rows|
  {
    ResealKeepsUnique(c, start, |start|);
  }

  class KeyTable {
    const key: Option<Suite>
    var rows: seq<KeyRow>

    constructor (key: Option<Suite>, rows: seq<KeyRow>)
      ensures this.key == key && this.rows == rows
    {
      this.key, this.rows := key, rows;
    }

    /** One transaction: refused without a key, rolled back on a clash, else every row sealed. */
    method Reseal() returns (counts: Option<(nat, nat)>)
      requires UniqueHashes(rows) && (key.Some? ==> Lawful(key.value))
      modifies this`rows
      ensures counts.Some? <==> key.Some? && !Clash(key.value, old(rows))
      ensures counts.None? ==> rows == old(rows)
      ensures counts.Some? ==> rows == Resealed(key.value, old(rows), |old(rows)|) && UniqueHashes(rows)
      ensures counts.Some? ==> counts.value.1 == CountSealed(old(rows), |old(rows)|)
      ensures counts.Some? ==> counts.value.0 + counts.value.1 == |rows|
    {
      if key.None? {
        return None;
      }
      var snapshot := rows;
      var done, skipped := 0, 0;
      for i := 0 to |snapshot|
        invariant Migrated(key.value, snapshot, i, rows, done, skipped)
      {
        if IsSealed(snapshot[i].stored) {
          SkipRow(key.value, snapshot, i, rows, done, skipped);
          skipped := skipped + 1;
        } else {
          SealRow(key.value, snapshot, i, rows, done, skipped);
          var sealed := Seal(key.value, snapshot[i].stored);
          if exists j :: 0 <= j < |rows| && rows[j].stored == sealed {
            rows := snapshot;
            return None;
          }
          rows := rows[i := rows[i].(stored := sealed)];
          done := done + 1;
        }
      }
      MigrationDone(key.value, snapshot, rows, done, skipped);
      return Some((done, skipped));
    }
  }
}
