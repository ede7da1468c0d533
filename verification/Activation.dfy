/**
 Redeeming address activation codes: each redeemer looks the code up, checks the bound address, claims
 the code, creates an agent key and deletes the code, one database call at a time, interleaved with
 other redeemers and with the issuing of codes.
 */
module Activation {
  import opened Options

  /** A row of `activation_codes`; `bound` is the address it is bound to, empty for a batch code. */
  datatype Code = Code(system: Option<string>, bound: string, claimed: bool, frozen: bool, expires: Option<nat>)

  datatype Key = Key(system: string, address: string, hash: string, scopes: seq<string>, category: string)

  datatype Db = Db(codes: map<string, Code>, keys: seq<Key>)

  // ── Database calls ────────────────────────────────────────────────────

  /** Milliseconds are dropped on both sides: the comparison is on text whose clock side has whole seconds. */
  predicate Usable(c: Code, now: nat) {
    !c.claimed && !c.frozen && (c.expires.None? || c.expires.value / 1000 > now / 1000)
  }

  datatype Lookup = Found(system: string, bound: string) | Missing | Unreadable

  function LookupCode(db: Db, hash: string, now: nat): Lookup {
    if hash !in db.codes || !Usable(db.codes[hash], now) then Missing
    else match db.codes[hash].system
      case None => Unreadable
      case Some(system) => Found(system, db.codes[hash].bound)
  }

  predicate Claimable(db: Db, hash: string) {
    hash in db.codes && !db.codes[hash].claimed
  }

  function Claim(db: Db, hash: string): Db {
    if Claimable(db, hash) then db.(codes := db.codes[hash := db.codes[hash].(claimed := true)]) else db
  }

  /** Both unique constraints of `api_keys`: the key hash, and the address within the system. */
  predicate Insertable(db: Db, k: Key) {
    forall x :: x in db.keys ==> x.hash != k.hash && (x.system, x.address) != (k.system, k.address)
  }

  function InsertKey(db: Db, k: Key): Db {
    if Insertable(db, k) then db.(keys := db.keys + [k]) else db
  }

  function DeleteCode(db: Db, hash: string): Db {
    db.(codes := db.codes - {hash})
  }

  function Lower(c: char): char {
    if 'A' <= c <= 'Z' then c - 'A' + 'a' else c
  }

  predicate EqIgnoreCase(a: string, b: string) {
    |a| == |b| && forall i :: 0 <= i < |a| ==> Lower(a[i]) == Lower(b[i])
  }

  predicate Fits(bound: string, address: string) {
    bound == "" || EqIgnoreCase(address, bound)
  }

  function AgentKey(system: string, address: string, hash: string): Key {
    Key(system, address, hash, ["agent"], "agent")
  }

  // ── One redeemer, step by step ────────────────────────────────────────

  datatype Phase =
    | Asking
    | Checked(system: string)
    | Claimed(system: string)
    | Created(key: Key)
    | Finished(key: Key)
    | Gone
    | Forbidden
    | Internal
    | Burnt  // claimed, but the key was not created

  datatype Redeemer = Redeemer(code: string, address: string, keyHash: string, phase: Phase)

  /** The next database call of a redeemer. */
  function Advance(db: Db, r: Redeemer, now: nat): (Db, Phase) {
    match r.phase
    case Asking =>
      (match LookupCode(db, r.code, now)
       case Missing => (db, Gone)
       case Unreadable => (db, Internal)
       case Found(system, bound) => (db, if Fits(bound, r.address) then Checked(system) else Forbidden))
    case Checked(system) =>
      (Claim(db, r.code), if Claimable(db, r.code) then Claimed(system) else Gone)
    case Claimed(system) =>
      var k := AgentKey(system, r.address, r.keyHash);
      (InsertKey(db, k), if Insertable(db, k) then Created(k) else Burnt)
    case Created(key) => (DeleteCode(db, r.code), Finished(key))
    case phase => (db, phase)
  }

  /** The redemption with nobody else around. */
  function Redeem(db: Db, r: Redeemer, now: nat): (Db, Phase) {
    var (db1, p1) := Advance(db, r, now);
    var (db2, p2) := Advance(db1, r.(phase := p1), now);
    var (db3, p3) := Advance(db2, r.(phase := p2), now);
    Advance(db3, r.(phase := p3), now)
  }

  class Store {
    var codes: map<string, Code>
    var keys: seq<Key>

    ghost function View(): Db
      reads this
    {
      Db(codes, keys)
    }

    constructor ()
      ensures View() == Db(map[], [])
    {
      codes, keys := map[], [];
    }

    method ClaimCode(hash: string) returns (claimed: bool)
      modifies this`codes
      ensures View() == Claim(old(View()), hash) && claimed == Claimable(old(View()), hash)
    {
      claimed := hash in codes && !codes[hash].claimed;
      if claimed {
        codes := codes[hash := codes[hash].(claimed := true)];
      }
    }

    method CreateKey(k: Key) returns (created: bool)
      modifies this`keys
      ensures View() == InsertKey(old(View()), k) && created == Insertable(old(View()), k)
    {
      created := forall x :: x in keys ==> x.hash != k.hash && (x.system, x.address) != (k.system, k.address);
      if created {
        keys := keys + [k];
      }
    }

    /** The handler, run without interruption. */
    method Activate(hash: string, address: string, keyHash: string, now: nat) returns (outcome: Phase)
      modifies this`codes, this`keys
      ensures (View(), outcome) == Redeem(old(View()), Redeemer(hash, address, keyHash, Asking), now)
    {
      if hash !in codes || !Usable(codes[hash], now) {
        return Gone;
      }
      if codes[hash].system.None? {
        return Internal;
      }
      var system, bound := codes[hash].system.value, codes[hash].bound;
      if bound != "" && !EqIgnoreCase(address, bound) {
        return Forbidden;
      }
      var claimed := ClaimCode(hash);
      if !claimed {
        assert false;
        return Gone;
      }
      var k := AgentKey(system, address, keyHash);
      var created := CreateKey(k);
      if !created {
        return Burnt;
      }
      codes := codes - {hash};
      return Finished(k);
    }
  }

  // ── Any number of redeemers, in any interleaving ──────────────────────

  datatype Event =
    | Issue(hash: string, row: Code)
    | Provision(key: Key)  // a key stored by other means
    | Begin(id: nat, code: string, address: string, keyHash: string)
    | Next(id: nat, now: nat)

  datatype State = State(db: Db, redeemers: map<nat, Redeemer>)

  function Step(s: State, e: Event): State {
    match e
    case Issue(hash, row) =>
      if hash in s.db.codes then s else s.(db := s.db.(codes := s.db.codes[hash := row]))
    case Provision(key) => s.(db := InsertKey(s.db, key))
    case Begin(id, code, address, keyHash) =>
      if id in s.redeemers then s
      else s.(redeemers := s.redeemers[id := Redeemer(code, address, keyHash, Asking)])
    case Next(id, now) =>
      if id !in s.redeemers then s else
        var r := s.redeemers[id];
        var (db, phase) := Advance(s.db, r, now);
        State(db, s.redeemers[id := r.(phase := phase)])
  }

  function After(es: seq<Event>, n: nat): State
    requires n <= |es|
  {
    if n == 0 then State(Db(map[], []), map[]) else Step(After(es, n - 1), es[n - 1])
  }

  /** How often a code was issued. */
  function Issues(es: seq<Event>, n: nat, hash: string): nat
    requires n <= |es|
  {
    if n == 0 then 0 else Issues(es, n - 1, hash) + if es[n - 1].Issue? && es[n - 1].hash == hash then 1 else 0
  }

  predicate HasClaim(r: Redeemer) {
    r.phase.Claimed? || r.phase.Created? || r.phase.Finished? || r.phase.Burnt?
  }

  predicate HasKey(r: Redeemer) {
    r.phase.Created? || r.phase.Finished?
  }

  function Winners(s: State, hash: string): set<nat> {
    set id | id in s.redeemers && s.redeemers[id].code == hash && HasClaim(s.redeemers[id])
  }

  function Open(s: State, hash: string): nat {
    if Claimable(s.db, hash) then 1 else 0
  }

  /** Does this step win the claim on the code? */
  predicate Wins(s: State, e: Event, hash: string) {
    && e.Next? && e.id in s.redeemers && s.redeemers[e.id].code == hash
    && s.redeemers[e.id].phase.Checked? && Claimable(s.db, hash)
  }

  lemma WinnersGrow(s: State, e: Event, hash: string)
    ensures Winners(Step(s, e), hash) == Winners(s, hash) + if Wins(s, e, hash) then {e.id} else {}
  {
  }

  lemma OpenStep(s: State, e: Event, hash: string)
    ensures Open(Step(s, e), hash) <= Open(s, hash)
      + (if e.Issue? && e.hash == hash then 1 else 0) - (if Wins(s, e, hash) then 1 else 0)
  {
  }

  /** Claims on a code, and a row still open to one, never outnumber the times it was issued. */
  lemma {:induction false} ClaimsBounded(es: seq<Event>, n: nat, hash: string)
    requires n <= |es|
    ensures |Winners(After(es, n), hash)| + Open(After(es, n), hash) <= Issues(es, n, hash)
  {
    if n == 0 {
      assert Winners(After(es, 0), hash) == {};
    } else {
      ClaimsBounded(es, n - 1, hash);
      WinnersGrow(After(es, n - 1), es[n - 1], hash);
      OpenStep(After(es, n - 1), es[n - 1], hash);
    }
  }

  /** Of all the redeemers of one code, at most one gets as far as creating a key. */
  lemma AtMostOneKey(es: seq<Event>, n: nat, hash: string, a: nat, b: nat)
    requires n <= |es| && Issues(es, n, hash) <= 1
    requires var rs := After(es, n).redeemers;
      a in rs && b in rs && rs[a].code == rs[b].code == hash && HasClaim(rs[a]) && HasClaim(rs[b])
    ensures a == b
  {
    var w := Winners(After(es, n), hash);
    ClaimsBounded(es, n, hash);
    assert a in w && b in w;
    assert |w - {a}| == |w| - 1;
  }

  // ── Burnt codes ───────────────────────────────────────────────────────

  /**
   A lone redemption burns its code exactly when the code is usable and fits the address, and the address
   already has a key in the code's system or the new key's hash is taken.
   */
  lemma BurnsIff(db: Db, code: string, address: string, keyHash: string, now: nat)
    ensures Redeem(db, Redeemer(code, address, keyHash, Asking), now).1 == Burnt <==>
      var l := LookupCode(db, code, now);
      l.Found? && Fits(l.bound, address) && !Insertable(db, AgentKey(l.system, address, keyHash))
    ensures Redeem(db, Redeemer(code, address, keyHash, Asking), now).1 == Burnt ==>
      Redeem(db, Redeemer(code, address, keyHash, Asking), now).0 == Claim(db, code)
  {
  }

  lemma {:induction false} BurntStays(es: seq<Event>, m: nat, n: nat, id: nat)
    requires m <= n <= |es| && id in After(es, m).redeemers && After(es, m).redeemers[id].phase == Burnt
    ensures id in After(es, n).redeemers && After(es, n).redeemers[id] == After(es, m).redeemers[id]
  {
    if n == m {
    } else {
      BurntStays(es, m, n - 1, id);
    }
  }

  /** A burnt code never yields a key: whatever happens later, no redeemer of it gets one. */
  lemma BurntForGood(es: seq<Event>, m: nat, n: nat, hash: string, burnt: nat, other: nat)
    requires m <= n <= |es| && Issues(es, n, hash) <= 1
    requires burnt in After(es, m).redeemers && After(es, m).redeemers[burnt].code == hash
    requires After(es, m).redeemers[burnt].phase == Burnt
    requires other in After(es, n).redeemers && After(es, n).redeemers[other].code == hash
    ensures !HasKey(After(es, n).redeemers[other])
  {
    BurntStays(es, m, n, burnt);
    if HasClaim(After(es, n).redeemers[other]) {
      AtMostOneKey(es, n, hash, burnt, other);
    }
  }

  // ── What the key looks like ───────────────────────────────────────────

  /** Was a code with this hash, system and binding issued? */
  ghost predicate IssuedAs(es: seq<Event>, n: nat, hash: string, system: string, address: string)
    requires n <= |es|
  {
    exists j :: 0 <= j < n && es[j].Issue? && es[j].hash == hash
      && es[j].row.system == Some(system) && Fits(es[j].row.bound, address)
  }

  ghost predicate RowIssued(es: seq<Event>, n: nat, hash: string, row: Code)
    requires n <= |es|
  {
    exists j :: 0 <= j < n && es[j].Issue? && es[j].hash == hash
      && es[j].row.system == row.system && es[j].row.bound == row.bound
  }

  ghost predicate Genuine(es: seq<Event>, n: nat, r: Redeemer)
    requires n <= |es|
  {
    match r.phase
    case Checked(system) => IssuedAs(es, n, r.code, system, r.address)
    case Claimed(system) => IssuedAs(es, n, r.code, system, r.address)
    case Created(k) => IssuedAs(es, n, r.code, k.system, r.address) && k == AgentKey(k.system, r.address, r.keyHash)
    case Finished(k) => IssuedAs(es, n, r.code, k.system, r.address) && k == AgentKey(k.system, r.address, r.keyHash)
    case _ => true
  }

  lemma {:induction false} RowWasIssued(es: seq<Event>, n: nat, hash: string)
    requires n <= |es| && hash in After(es, n).db.codes
    ensures RowIssued(es, n, hash, After(es, n).db.codes[hash])
  {
    if hash in After(es, n - 1).db.codes {
      RowWasIssued(es, n - 1, hash);
    } else {
      assert es[n - 1].Issue? && es[n - 1].hash == hash;
    }
  }

  lemma AdvanceGenuine(es: seq<Event>, n: nat, db: Db, r: Redeemer, now: nat)
    requires n <= |es| && Genuine(es, n, r)
    requires r.code in db.codes ==> RowIssued(es, n, r.code, db.codes[r.code])
    ensures Genuine(es, n, r.(phase := Advance(db, r, now).1))
  {
  }

  lemma GenuineLater(es: seq<Event>, n: nat, r: Redeemer)
    requires n < |es| && Genuine(es, n, r)
    ensures Genuine(es, n + 1, r)
  {
  }

  lemma {:induction false} RunGenuine(es: seq<Event>, n: nat, id: nat)
    requires n <= |es| && id in After(es, n).redeemers
    ensures Genuine(es, n, After(es, n).redeemers[id])
  {
    var s, e := After(es, n - 1), es[n - 1];
    if id in s.redeemers {
      RunGenuine(es, n - 1, id);
      if e.Next? && e.id == id {
        if s.redeemers[id].code in s.db.codes {
          RowWasIssued(es, n - 1, s.redeemers[id].code);
        }
        AdvanceGenuine(es, n - 1, s.db, s.redeemers[id], e.now);
      }
      GenuineLater(es, n - 1, After(es, n).redeemers[id]);
    }
  }

  /** A key created from a code has an issued row's system, the agent scope alone, and a fitting address. */
  lemma KeyMatchesCode(es: seq<Event>, n: nat, id: nat)
    requires n <= |es| && id in After(es, n).redeemers && HasKey(After(es, n).redeemers[id])
    ensures var r := After(es, n).redeemers[id];
      && r.phase.key.scopes == ["agent"] && r.phase.key.category == "agent"
      && r.phase.key.address == r.address && r.phase.key.hash == r.keyHash
      && (exists j :: 0 <= j < n && es[j].Issue? && es[j].hash == r.code
           && es[j].row.system == Some(r.phase.key.system)
           && (es[j].row.bound == "" || EqIgnoreCase(r.phase.key.address, es[j].row.bound)))
  {
    RunGenuine(es, n, id);
  }

  /** Every key in the table that was not stored by other means belongs to a redeemer holding a claim. */
  lemma {:induction false} EveryKeyRedeemed(es: seq<Event>, n: nat, k: Key)
    requires n <= |es| && k in After(es, n).db.keys
    requires forall j :: 0 <= j < n ==> es[j] != Provision(k)
    ensures var rs := After(es, n).redeemers;
      exists id :: id in rs && HasKey(rs[id]) && rs[id].phase.key == k
  {
    var s, e := After(es, n - 1), es[n - 1];
    if k in s.db.keys {
      EveryKeyRedeemed(es, n - 1, k);
      var id :| id in s.redeemers && HasKey(s.redeemers[id]) && s.redeemers[id].phase.key == k;
      assert id in After(es, n).redeemers && HasKey(After(es, n).redeemers[id]);
    } else {
      assert e.Next? && e.id in s.redeemers;
      assert HasKey(After(es, n).redeemers[e.id]) && After(es, n).redeemers[e.id].phase.key == k;
    }
  }
}
