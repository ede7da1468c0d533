/**
 What the row of a code had to be for its redemption: behind every claim, in any interleaving, and for each
 outcome of a redemption that nobody interrupts.
 */
module ActivationRules {
  import opened Options
  import opened Activation

  // ── Behind every claim ────────────────────────────────────────────────

  /** The redeemer has passed the check of its code. */
  predicate HasPassed(r: Redeemer) {
    r.phase.Checked? || HasClaim(r)
  }

  predicate SystemIs(r: Redeemer, system: string) {
    match r.phase
    case Checked(s) => s == system
    case Claimed(s) => s == system
    case Created(k) => k.system == system
    case Finished(k) => k.system == system
    case _ => true
  }

  /**
   This step is the redeemer's look-up of its code, which finds it unclaimed, not frozen, and not yet in the
   second in which it expires, and bound to no address or to the redeemer's.
   */
  ghost predicate LooksUp(s: State, e: Event, id: nat, r: Redeemer) {
    && e.Next? && e.id == id && id in s.redeemers && s.redeemers[id] == r.(phase := Asking) && r.code in s.db.codes
    && var row := s.db.codes[r.code];
       && row.claimed == false && row.frozen == false
       && (row.expires == None || row.expires.value / 1000 > e.now / 1000)
       && row.system.Some? && SystemIs(r, row.system.value)
       && (row.bound == "" || EqIgnoreCase(r.address, row.bound))
  }

  lemma NextPasses(s: State, e: Event, id: nat)
    requires id in s.redeemers && HasPassed(Step(s, e).redeemers[id])
    ensures HasPassed(s.redeemers[id]) || LooksUp(s, e, id, Step(s, e).redeemers[id])
    ensures HasPassed(s.redeemers[id]) ==>
      var r, r' := s.redeemers[id], Step(s, e).redeemers[id];
      && r'.code == r.code && r'.address == r.address && r'.keyHash == r.keyHash
      && forall system :: SystemIs(r, system) && !r.phase.Burnt? ==> SystemIs(r', system)
  {
  }

  /** Behind every redeemer that has passed the check lies its look-up, with the row it found there. */
  lemma {:induction false} PassTraces(es: seq<Event>, n: nat, id: nat) returns (j: nat)
    requires n <= |es| && id in After(es, n).redeemers && HasPassed(After(es, n).redeemers[id])
    ensures j < n && LooksUp(After(es, j), es[j], id, After(es, n).redeemers[id])
  {
    var s := After(es, n - 1);
    if id in s.redeemers {
      NextPasses(s, es[n - 1], id);
      if HasPassed(s.redeemers[id]) {
        j := PassTraces(es, n - 1, id);
        if s.redeemers[id].phase.Burnt? {
          assert After(es, n).redeemers[id] == s.redeemers[id];
        }
      } else {
        j := n - 1;
      }
    } else {
      assert false;
    }
  }

  /** This step is the redeemer's claim: it finds the code unclaimed and leaves it claimed. */
  ghost predicate TakesClaim(s: State, e: Event, id: nat, code: string) {
    && e.Next? && e.id == id && id in s.redeemers && s.redeemers[id].code == code && s.redeemers[id].phase.Checked?
    && code in s.db.codes && s.db.codes[code].claimed == false
    && Step(s, e).db == Db(s.db.codes[code := s.db.codes[code].(claimed := true)], s.db.keys)
  }

  lemma NextClaims(s: State, e: Event, id: nat)
    requires id in s.redeemers && HasClaim(Step(s, e).redeemers[id])
    ensures HasClaim(s.redeemers[id]) || TakesClaim(s, e, id, Step(s, e).redeemers[id].code)
    ensures Step(s, e).redeemers[id].code == s.redeemers[id].code
  {
  }

  lemma {:induction false} ClaimIn(es: seq<Event>, n: nat, id: nat) returns (k: nat)
    requires n <= |es| && id in After(es, n).redeemers && HasClaim(After(es, n).redeemers[id])
    ensures k < n && TakesClaim(After(es, k), es[k], id, After(es, n).redeemers[id].code)
  {
    var s := After(es, n - 1);
    if id in s.redeemers {
      NextClaims(s, es[n - 1], id);
      if HasClaim(s.redeemers[id]) {
        k := ClaimIn(es, n - 1, id);
      } else {
        k := n - 1;
      }
    } else {
      assert false;
    }
  }

  /**
   In every interleaving, behind each redeemer holding a claim lie its look-up, which found the code usable, and
   after that its claim, which found it unclaimed.
   */
  lemma ClaimTraces(es: seq<Event>, n: nat, id: nat) returns (j: nat, k: nat)
    requires n <= |es| && id in After(es, n).redeemers && HasClaim(After(es, n).redeemers[id])
    ensures j < k < n && id in After(es, k).redeemers
    ensures LooksUp(After(es, j), es[j], id, After(es, k).redeemers[id])
    ensures TakesClaim(After(es, k), es[k], id, After(es, n).redeemers[id].code)
  {
    k := ClaimIn(es, n, id);
    j := PassTraces(es, k, id);
  }

  /** The claim does not ask for the expiry again: a code that expires after the look-up still makes a key. */
  lemma ExpiresMeanwhile(code: string, address: string, keyHash: string)
    ensures var row := Code(Some("s"), "", false, false, Some(1000));
      var es := [Issue(code, row), Begin(0, code, address, keyHash), Next(0, 0), Next(0, 9000), Next(0, 9000)];
      && After(es, 3).db.codes == map[code := row]
      && LookupCode(After(es, 3).db, code, 9000) == Missing
      && 0 in After(es, 5).redeemers && After(es, 5).redeemers[0].phase == Created(AgentKey("s", address, keyHash))
  {
    var row := Code(Some("s"), "", false, false, Some(1000));
    var es := [Issue(code, row), Begin(0, code, address, keyHash), Next(0, 0), Next(0, 9000), Next(0, 9000)];
    var r := Redeemer(code, address, keyHash, Checked("s"));
    assert After(es, 1) == State(Db(map[code := row], []), map[]);
    assert After(es, 2) == State(Db(map[code := row], []), map[0 := r.(phase := Asking)]);
    assert After(es, 3) == State(Db(map[code := row], []), map[0 := r]);
    assert After(es, 4).redeemers[0] == r.(phase := Claimed("s")) && After(es, 4).db.keys == [];
  }

  /** The next call of a redeemer that has passed the check: it has the claim, or the code is gone for it. */
  lemma ClaimAnswer(db: Db, r: Redeemer, now: nat)
    requires r.phase.Checked?
    ensures var (s, p) := Advance(db, r, now);
      if r.code in db.codes && !db.codes[r.code].claimed then
        p == Claimed(r.phase.system) && s == Db(db.codes[r.code := db.codes[r.code].(claimed := true)], db.keys)
      else p == Gone && s == db
  {
  }

  /** Issuing never touches a stored code, and a key stored by other means meets the same constraints. */
  lemma OtherEvents(s: State, hash: string, row: Code, key: Key)
    ensures Step(s, Issue(hash, row)).db.keys == s.db.keys && Step(s, Issue(hash, row)).redeemers == s.redeemers
    ensures Step(s, Issue(hash, row)).db.codes == if hash in s.db.codes then s.db.codes else s.db.codes[hash := row]
    ensures Step(s, Provision(key)).db.codes == s.db.codes && Step(s, Provision(key)).redeemers == s.redeemers
    ensures Step(s, Provision(key)).db.keys ==
      if exists i :: 0 <= i < |s.db.keys| && (s.db.keys[i].hash == key.hash
                       || (s.db.keys[i].system == key.system && s.db.keys[i].address == key.address))
      then s.db.keys else s.db.keys + [key]
  {
    forall i | 0 <= i < |s.db.keys| ensures s.db.keys[i] in s.db.keys {}
  }

  // ── Without interruption ──────────────────────────────────────────────

  /** The letters are the same, or one is the capital of the other. */
  predicate SameLetter(x: char, y: char) {
    x == y || ('A' <= x <= 'Z' && y as int == x as int + 32) || ('A' <= y <= 'Z' && x as int == y as int + 32)
  }

  lemma EqIgnoreCaseIff(a: string, b: string)
    ensures EqIgnoreCase(a, b) <==> |a| == |b| && forall i :: 0 <= i < |a| ==> SameLetter(a[i], b[i])
  {
    forall i | 0 <= i < |a| && |a| == |b| ensures Lower(a[i]) == Lower(b[i]) <==> SameLetter(a[i], b[i]) {}
  }

  /** A key of the same hash, or of the same address within the system. */
  predicate Collides(keys: seq<Key>, system: string, address: string, keyHash: string) {
    exists i :: 0 <= i < |keys|
      && (keys[i].hash == keyHash || (keys[i].system == system && keys[i].address == address))
  }

  lemma CollidesIff(db: Db, system: string, address: string, keyHash: string)
    ensures Insertable(db, AgentKey(system, address, keyHash)) <==> !Collides(db.keys, system, address, keyHash)
  {
    if Collides(db.keys, system, address, keyHash) {
      var i :| 0 <= i < |db.keys|
        && (db.keys[i].hash == keyHash || (db.keys[i].system == system && db.keys[i].address == address));
      assert db.keys[i] in db.keys;
    }
  }

  /** Every outcome of a lone redemption, in the fields of the row, and what it leaves in the database. */
  lemma RedeemOutcomes(db: Db, code: string, address: string, keyHash: string, now: nat)
    ensures var (s, p) := Redeem(db, Redeemer(code, address, keyHash, Asking), now);
      if code !in db.codes || db.codes[code].claimed || db.codes[code].frozen
         || (db.codes[code].expires.Some? && db.codes[code].expires.value / 1000 <= now / 1000) then
        p == Gone && s == db
      else
        var row := db.codes[code];
        if row.system == None then p == Internal && s == db
        else if row.bound != "" && !EqIgnoreCase(address, row.bound) then p == Forbidden && s == db
        else if Collides(db.keys, row.system.value, address, keyHash) then
          p == Burnt && s == Db(db.codes[code := row.(claimed := true)], db.keys)
        else
          var k := Key(row.system.value, address, keyHash, ["agent"], "agent");
          p == Finished(k) && s == Db(db.codes - {code}, db.keys + [k])
  {
    var l := LookupCode(db, code, now);
    if l.Found? && Fits(l.bound, address) {
      CollidesIff(Claim(db, code), l.system, address, keyHash);
      RedeemFinds(db, code, address, keyHash, now);
    }
  }

  lemma RedeemFinds(db: Db, code: string, address: string, keyHash: string, now: nat)
    requires var l := LookupCode(db, code, now); l.Found? && Fits(l.bound, address)
    ensures var k, s := AgentKey(LookupCode(db, code, now).system, address, keyHash), Claim(db, code);
      Redeem(db, Redeemer(code, address, keyHash, Asking), now)
        == if Insertable(s, k) then (DeleteCode(InsertKey(s, k), code), Finished(k)) else (s, Burnt)
  {
  }
}
