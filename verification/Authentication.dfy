/** Which requests authenticate, and as which key: told by the rows of the key table and what they seal. */
module Authentication {
  import opened Options
  import opened Sealing

  // ── Material ──────────────────────────────────────────────────────────

  /** The row stores this unsealed value, as it is or sealed. */
  predicate Stores(c: Suite, r: KeyRow, plain: string) {
    !IsSealed(plain) && (r.stored == plain || r.stored == Seal(c, plain))
  }

  /** Signatures are verified with the value itself, whichever way it is stored. */
  lemma MaterialIs(c: Suite, r: KeyRow, plain: string)
    requires Lawful(c) && Stores(c, r, plain)
    ensures SigningMaterial(Some(c), r.stored) == Some(plain)
    ensures SigningMaterial(None, r.stored) == if r.stored == plain then Some(plain) else None
  {
    SealRoundTrip(c, plain);
  }

  // ── Candidates ────────────────────────────────────────────────────────

  lemma {:induction false} FilterIff(rows: seq<KeyRow>, col: Column, identity: string, r: KeyRow)
    ensures r in Filter(rows, col, identity) <==>
      r in rows && r.live && ((col == Address && r.address == identity) || (col == System && r.system == identity))
  {
    if rows == [] {
    } else {
      FilterIff(rows[1..], col, identity, r);
      assert rows == [rows[0]] + rows[1..];
    }
  }

  /** The candidates of an identity are the live rows whose address or system it is; an empty one has none. */
  lemma CandidateIff(rows: seq<KeyRow>, identity: string, r: KeyRow)
    ensures r in Candidates(rows, identity) <==>
      identity != "" && r in rows && r.live && (r.address == identity || r.system == identity)
  {
    FilterIff(rows, Address, identity, r);
    FilterIff(rows, System, identity, r);
  }

  // ── Selection ─────────────────────────────────────────────────────────

  ghost predicate Verifies(key: Option<Suite>, r: KeyRow, ok: Verifier) {
    exists m :: SigningMaterial(key, r.stored) == Some(m) && ok(m)
  }

  lemma {:induction false} SelectIff(key: Option<Suite>, candidates: seq<KeyRow>, ok: Verifier)
    ensures Select(key, candidates, ok).Some? <==> exists r :: r in candidates && Verifies(key, r, ok)
    ensures Select(key, candidates, ok).Some? ==>
      Select(key, candidates, ok).value in candidates && Verifies(key, Select(key, candidates, ok).value, ok)
  {
    if candidates == [] {
    } else {
      SelectIff(key, candidates[1..], ok);
      assert candidates == [candidates[0]] + candidates[1..];
      assert Verifies(key, candidates[0], ok) ==> Select(key, candidates, ok) == Some(candidates[0]);
    }
  }

  lemma {:induction false} SelectConcat(key: Option<Suite>, a: seq<KeyRow>, b: seq<KeyRow>, ok: Verifier)
    ensures Select(key, a + b, ok) == if Select(key, a, ok).Some? then Select(key, a, ok) else Select(key, b, ok)
  {
    if a == [] {
      assert a + b == b;
    } else {
      assert (a + b)[1..] == a[1..] + b;
      SelectConcat(key, a[1..], b, ok);
    }
  }

  /** The row of the identity verifies the request with the value it stores. */
  ghost predicate Signs(c: Suite, r: KeyRow, identity: string, ok: Verifier) {
    && r.live && (r.address == identity || r.system == identity)
    && exists plain :: Stores(c, r, plain) && ok(plain)
  }

  /** Every row stores some unsealed value. */
  ghost predicate AllStore(c: Suite, rows: seq<KeyRow>) {
    forall r :: r in rows ==> exists plain :: Stores(c, r, plain)
  }

  lemma VerifiesIff(c: Suite, r: KeyRow, ok: Verifier)
    requires Lawful(c) && exists plain :: Stores(c, r, plain)
    ensures Verifies(Some(c), r, ok) <==> exists plain :: Stores(c, r, plain) && ok(plain)
  {
    forall plain | Stores(c, r, plain) ensures SigningMaterial(Some(c), r.stored) == Some(plain) {
      MaterialIs(c, r, plain);
    }
  }

  /**
   A request authenticates exactly when its identity is not empty and some live row of that address or system
   stores, plain or sealed, a value that verifies it; and then it authenticates as such a row.
   */
  lemma AuthenticatesIff(c: Suite, rows: seq<KeyRow>, identity: string, ok: Verifier)
    requires Lawful(c) && AllStore(c, rows)
    ensures var found := Select(Some(c), Candidates(rows, identity), ok);
      && (found.Some? <==> identity != "" && exists r :: r in rows && Signs(c, r, identity, ok))
      && (found.Some? ==> found.value in rows && Signs(c, found.value, identity, ok))
  {
    var candidates := Candidates(rows, identity);
    SelectIff(Some(c), candidates, ok);
    forall r | r in rows
      ensures r in candidates && Verifies(Some(c), r, ok) <==> identity != "" && Signs(c, r, identity, ok)
    {
      CandidateIff(rows, identity, r);
      VerifiesIff(c, r, ok);
    }
    forall r | r in candidates ensures r in rows {
      CandidateIff(rows, identity, r);
    }
  }

  /** A row of the address goes before a row of the system. */
  lemma AddressFirst(key: Option<Suite>, rows: seq<KeyRow>, identity: string, ok: Verifier, r: KeyRow)
    requires identity != "" && r in rows && r.live && r.address == identity && Verifies(key, r, ok)
    ensures var found := Select(key, Candidates(rows, identity), ok); found.Some? && found.value.address == identity
  {
    var mine := Filter(rows, Address, identity);
    FilterIff(rows, Address, identity, r);
    SelectIff(key, mine, ok);
    SelectConcat(key, mine, Filter(rows, System, identity), ok);
    FilterIff(rows, Address, identity, Select(key, mine, ok).value);
  }

  /** Without the sealing key only plaintext rows authenticate. */
  lemma KeylessIff(c: Suite, rows: seq<KeyRow>, identity: string, ok: Verifier)
    requires Lawful(c) && AllStore(c, rows)
    ensures Select(None, Candidates(rows, identity), ok).Some? <==>
      identity != "" && exists r :: r in rows && !IsSealed(r.stored) && Signs(c, r, identity, ok)
  {
    var candidates := Candidates(rows, identity);
    SelectIff(None, candidates, ok);
    forall r | r in rows
      ensures r in candidates && Verifies(None, r, ok) <==>
        identity != "" && !IsSealed(r.stored) && Signs(c, r, identity, ok)
    {
      CandidateIff(rows, identity, r);
      VerifiesIff(c, r, ok);
      forall plain | Stores(c, r, plain) ensures IsSealed(r.stored) <==> r.stored != plain {
        SealRoundTrip(c, plain);
      }
      assert !IsSealed(r.stored) ==> Verifies(None, r, ok) == Verifies(Some(c), r, ok);
    }
    forall r | r in candidates ensures r in rows {
      CandidateIff(rows, identity, r);
    }
  }

  // ── Lookup by hash ────────────────────────────────────────────────────

  /** A lookup answers with a row exactly when a live one stores the hash, as it is or sealed. */
  lemma {:induction false} LookupIff(c: Suite, rows: seq<KeyRow>, hash: string)
    ensures var found := LookupHash(c, rows, hash);
      && (found.Some? <==> exists r :: r in rows && r.live && (r.stored == hash || r.stored == Seal(c, hash)))
      && (found.Some? ==>
            && found.value in rows && found.value.live
            && (found.value.stored == hash || found.value.stored == Seal(c, hash)))
  {
    if rows == [] {
    } else {
      LookupIff(c, rows[1..], hash);
      assert rows == [rows[0]] + rows[1..];
    }
  }
}
