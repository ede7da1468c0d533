/**
 The `system_domains` table behind its lookup cache.  Every write evicts the cached records it
 makes stale, so a cached lookup is a table read: at any clock, over every run of writes and lookups.
 */
module DomainCache {
  import opened Options

  datatype Record = Record(
    id: string, systemId: string, domain: string, webhookUrl: Option<string>, webhookSecret: Option<string>,
    isActive: bool, updatedAt: int)

  datatype Cached = Cached(at: int, record: Option<Record>)

  type Table = map<string, Record>
  type Cache = map<string, Cached>

  const CACHE_TTL := 30_000
  const CACHE_PURGE_AGE := 60_000
  const CACHE_PURGE_SIZE: nat := 1000

  // ── The table ─────────────────────────────────────────────────────────

  /** Primary key on the id, UNIQUE on the domain. */
  ghost predicate TableOk(rows: Table) {
    && (forall id :: id in rows ==> rows[id].id == id)
    && (forall a, b :: a in rows && b in rows && rows[a].domain == rows[b].domain ==> a == b)
  }

  ghost function ByDomain(rows: Table, domain: string): Option<Record> {
    if exists id :: id in rows && rows[id].domain == domain then
      var id :| id in rows && rows[id].domain == domain;
      Some(rows[id])
    else None
  }

  predicate Taken(rows: Table, domain: string) {
    exists id :: id in rows && rows[id].domain == domain
  }

  datatype Write =
    | Insert(record: Record)
    | Update(id: string, url: Option<string>, secret: Option<string>, active: Option<bool>, now: int)
    | Delete(id: string)
    | Rename(oldAddr: string, newAddr: string, othersOk: bool)

  /** Does the database accept the write?  A rename also touches other tables, which may refuse it. */
  predicate Accepts(rows: Table, w: Write) {
    match w
    case Insert(r) => r.id !in rows && !Taken(rows, r.domain)
    case Rename(o, n, othersOk) => othersOk && (o == n || !Taken(rows, o) || !Taken(rows, n))
    case _ => true
  }

  function Apply(rows: Table, w: Write): Table {
    if !Accepts(rows, w) then rows else
    match w
    case Insert(r) => rows[r.id := r]
    case Update(id, url, secret, active, now) =>
      if id !in rows then rows
      else rows[id := rows[id].(webhookUrl := url, webhookSecret := secret, updatedAt := now,
                                isActive := if active.Some? then active.value else rows[id].isActive)]
    case Delete(id) => rows - {id}
    case Rename(o, n, _) => map id | id in rows :: if rows[id].domain == o then rows[id].(domain := n) else rows[id]
  }

  /** Which cached entries a write throws out. */
  predicate Evicts(rows: Table, w: Write, key: string, c: Cached) {
    Accepts(rows, w) &&
    match w
    case Insert(r) => key == r.domain
    case Update(id, _, _, _, _) => id in rows && c.record.Some? && c.record.value.id == id
    case Delete(id) => c.record.Some? && c.record.value.id == id
    case Rename(o, _, _) => key == o || (c.record.Some? && c.record.value.domain == o)
  }

  function CacheAfterWrite(rows: Table, cache: Cache, w: Write): Cache {
    map k | k in cache && !Evicts(rows, w, k, cache[k]) :: cache[k]
  }

  // ── Lookups ───────────────────────────────────────────────────────────

  predicate Hit(cache: Cache, domain: string, now: int) {
    domain in cache && now - cache[domain].at < CACHE_TTL && cache[domain].record.Some?
  }

  /** A positive read is remembered; an overfull cache first drops its old entries. */
  function Remember(cache: Cache, domain: string, r: Option<Record>, now: int): Cache {
    if r.None? then cache
    else
      (if |cache| > CACHE_PURGE_SIZE
       then map k | k in cache && now - cache[k].at < CACHE_PURGE_AGE :: cache[k]
       else cache)
      [domain := Cached(now, r)]
  }

  /** Only positive reads are cached, and each is what the table holds for its key. */
  ghost predicate Coherent(rows: Table, cache: Cache) {
    TableOk(rows) && forall k :: k in cache ==> cache[k].record.Some? && cache[k].record == ByDomain(rows, k)
  }

  lemma ByDomainIs(rows: Table, id: string)
    requires TableOk(rows) && id in rows
    ensures ByDomain(rows, rows[id].domain) == Some(rows[id])
  {
  }

  lemma ByDomainNamed(rows: Table, domain: string)
    ensures ByDomain(rows, domain).Some? ==> ByDomain(rows, domain).value.domain == domain
  {
  }

  lemma WriteKeepsTable(rows: Table, w: Write)
    requires TableOk(rows)
    ensures TableOk(Apply(rows, w))
  {
  }

  /** The heart of the matter: what a write does not evict it does not change. */
  lemma UnevictedUnchanged(rows: Table, w: Write, key: string, c: Cached)
    requires TableOk(rows) && c.record.Some? && c.record == ByDomain(rows, key) && !Evicts(rows, w, key, c)
    ensures c.record == ByDomain(Apply(rows, w), key)
  {
    WriteKeepsTable(rows, w);
    var id := c.record.value.id;
    assert id in rows && rows[id] == c.record.value && rows[id].domain == key;
    assert Apply(rows, w)[id] == rows[id];
    ByDomainIs(Apply(rows, w), id);
  }

  lemma WriteKeepsCoherent(rows: Table, cache: Cache, w: Write)
    requires Coherent(rows, cache)
    ensures Coherent(Apply(rows, w), CacheAfterWrite(rows, cache, w))
  {
    WriteKeepsTable(rows, w);
    var c' := CacheAfterWrite(rows, cache, w);
    forall k | k in c' ensures c'[k].record.Some? && c'[k].record == ByDomain(Apply(rows, w), k) {
      UnevictedUnchanged(rows, w, k, cache[k]);
    }
  }

  // What a write does, statement by statement.

  lemma InsertEffect(rows: Table, cache: Cache, r: Record)
    ensures var w := Insert(r);
      if Accepts(rows, w)
      then Apply(rows, w) == rows[r.id := r] && CacheAfterWrite(rows, cache, w) == cache - {r.domain}
      else Apply(rows, w) == rows && CacheAfterWrite(rows, cache, w) == cache
  {
  }

  function Rekeyed(rows: Table, o: string, n: string): Table {
    map id | id in rows :: if rows[id].domain == o then rows[id].(domain := n) else rows[id]
  }

  /** Without the entries under the address and those that hold its record. */
  function Unnamed(cache: Cache, o: string): Cache {
    map k | k in cache && k != o && (cache[k].record.Some? ==> cache[k].record.value.domain != o) :: cache[k]
  }

  lemma RenameEffect(rows: Table, cache: Cache, o: string, n: string, othersOk: bool)
    ensures var w := Rename(o, n, othersOk);
      if Accepts(rows, w)
      then Apply(rows, w) == Rekeyed(rows, o, n) && CacheAfterWrite(rows, cache, w) == Unnamed(cache, o)
      else Apply(rows, w) == rows && CacheAfterWrite(rows, cache, w) == cache
  {
  }

  // ── Runs ──────────────────────────────────────────────────────────────

  datatype Event = Wrote(write: Write) | Looked(domain: string, now: int)

  datatype Store = Store(rows: Table, cache: Cache)

  ghost function Answer(s: Store, domain: string, now: int): Option<Record> {
    if Hit(s.cache, domain, now) then s.cache[domain].record else ByDomain(s.rows, domain)
  }

  ghost function Step(s: Store, e: Event): Store {
    match e
    case Wrote(w) => Store(Apply(s.rows, w), CacheAfterWrite(s.rows, s.cache, w))
    case Looked(d, now) =>
      if Hit(s.cache, d, now) then s else s.(cache := Remember(s.cache, d, ByDomain(s.rows, d), now))
  }

  ghost function After(rows: Table, es: seq<Event>, n: nat): Store
    requires n <= |es|
  {
    if n == 0 then Store(rows, map[]) else Step(After(rows, es, n - 1), es[n - 1])
  }

  lemma StepCoherent(s: Store, e: Event)
    requires Coherent(s.rows, s.cache)
    ensures Coherent(Step(s, e).rows, Step(s, e).cache)
  {
    if e.Wrote? {
      WriteKeepsCoherent(s.rows, s.cache, e.write);
    }
  }

  ghost predicate CoherentAt(rows: Table, es: seq<Event>, n: nat)
    requires n <= |es|
  {
    Coherent(After(rows, es, n).rows, After(rows, es, n).cache)
  }

  lemma {:induction false} RunCoherent(rows: Table, es: seq<Event>, n: nat)
    requires TableOk(rows) && n <= |es|
    ensures CoherentAt(rows, es, n)
  {
    if n == 0 {
    } else {
      RunCoherent(rows, es, n - 1);
      assert CoherentAt(rows, es, n) by {
        StepCoherent(After(rows, es, n - 1), es[n - 1]);
      }
    }
  }

  /** In every run, whatever the clock says, a lookup answers what a direct read of the table would. */
  lemma LookupIsTableRead(rows: Table, es: seq<Event>, n: nat, domain: string, now: int)
    requires TableOk(rows) && n <= |es|
    ensures Answer(After(rows, es, n), domain, now) == ByDomain(After(rows, es, n).rows, domain)
  {
    RunCoherent(rows, es, n);
  }

  /** The write could take a domain away from its record: the record is deleted, or the domain renamed. */
  predicate Releases(w: Write, id: string, domain: string) {
    (w.Delete? && w.id == id) || (w.Rename? && w.oldAddr == domain)
  }

  lemma WriteKeepsOwner(rows: Table, w: Write, domain: string)
    requires TableOk(rows) && ByDomain(rows, domain).Some? && !Releases(w, ByDomain(rows, domain).value.id, domain)
    ensures var was, r := ByDomain(rows, domain).value, ByDomain(Apply(rows, w), domain);
      r.Some? && r.value.id == was.id && r.value.systemId == was.systemId && r.value.domain == domain
  {
    WriteKeepsTable(rows, w);
    var was := ByDomain(rows, domain).value;
    assert was.id in rows && rows[was.id] == was;
    ByDomainIs(Apply(rows, w), was.id);
  }

  ghost predicate Owned(rows: Table, domain: string, was: Record) {
    var r := ByDomain(rows, domain);
    r.Some? && r.value.id == was.id && r.value.systemId == was.systemId && r.value.domain == domain
  }

  ghost predicate OwnedAt(rows: Table, es: seq<Event>, n: nat, domain: string, was: Record)
    requires n <= |es|
  {
    Owned(After(rows, es, n).rows, domain, was)
  }

  lemma StepKeepsOwner(s: Store, e: Event, domain: string, was: Record)
    requires TableOk(s.rows) && Owned(s.rows, domain, was) && (e.Wrote? ==> !Releases(e.write, was.id, domain))
    ensures Owned(Step(s, e).rows, domain, was)
  {
    if e.Wrote? {
      WriteKeepsOwner(s.rows, e.write, domain);
    }
  }

  lemma {:induction false} OwnedThroughout(rows: Table, es: seq<Event>, m: nat, n: nat, domain: string, was: Record)
    requires TableOk(rows) && m <= n <= |es| && OwnedAt(rows, es, m, domain, was)
    requires forall i :: m <= i < n && es[i].Wrote? ==> !Releases(es[i].write, was.id, domain)
    ensures OwnedAt(rows, es, n, domain, was)
  {
    if n == m {
    } else {
      OwnedThroughout(rows, es, m, n - 1, domain, was);
      assert OwnedAt(rows, es, n, domain, was) by {
        RunCoherent(rows, es, n - 1);
        StepKeepsOwner(After(rows, es, n - 1), es[n - 1], domain, was);
      }
    }
  }

  /**
   A registered domain keeps its record's identity and owner until that record is deleted or the
   domain is renamed, as seen by every lookup in between.
   */
  lemma OwnerIsStable(rows: Table, es: seq<Event>, m: nat, n: nat, domain: string, was: Record, now: int)
    requires TableOk(rows) && m <= n <= |es| && ByDomain(After(rows, es, m).rows, domain) == Some(was)
    requires forall i :: m <= i < n && es[i].Wrote? ==> !Releases(es[i].write, was.id, domain)
    ensures var r := Answer(After(rows, es, n), domain, now);
      r.Some? && r.value.id == was.id && r.value.systemId == was.systemId && r.value.domain == domain
  {
    RunCoherent(rows, es, m);
    ByDomainNamed(After(rows, es, m).rows, domain);
    OwnedThroughout(rows, es, m, n, domain, was);
    LookupIsTableRead(rows, es, n, domain, now);
  }

  // ── The storage class ─────────────────────────────────────────────────

  datatype Failure = Conflict | ConstraintFailed | Internal | BadTarget
  datatype Result = Ok(record: Record) | Err(failure: Failure)

  class DomainStore {
    var rows: Table
    var cache: Cache

    ghost predicate Valid()
      reads this
    {
      Coherent(rows, cache)
    }

    constructor ()
      ensures Valid() && rows == map[] && cache == map[]
    {
      rows, cache := map[], map[];
    }

    method InsertDomain(r: Record) returns (ok: bool)
      requires Valid()
      modifies this
      ensures Valid() && ok == Accepts(old(rows), Insert(r))
      ensures rows == Apply(old(rows), Insert(r)) && cache == CacheAfterWrite(old(rows), old(cache), Insert(r))
      ensures !ok ==> rows == old(rows) && cache == old(cache)
    {
      WriteKeepsCoherent(rows, cache, Insert(r));
      InsertEffect(rows, cache, r);
      if r.id in rows || Taken(rows, r.domain) {
        return false;
      }
      rows := rows[r.id := r];
      cache := cache - {r.domain};
      return true;
    }

    method UpdateDomain(id: string, url: Option<string>, secret: Option<string>, active: Option<bool>, now: int)
      returns (updated: Option<Record>)
      requires Valid()
      modifies this
      ensures Valid()
      ensures rows == Apply(old(rows), Update(id, url, secret, active, now))
      ensures cache == CacheAfterWrite(old(rows), old(cache), Update(id, url, secret, active, now))
      ensures updated == if id in old(rows) then Some(rows[id]) else None
    {
      WriteKeepsCoherent(rows, cache, Update(id, url, secret, active, now));
      if id !in rows {
        assert cache == CacheAfterWrite(rows, cache, Update(id, url, secret, active, now));
        return None;
      }
      var active' := if active.Some? then active.value else rows[id].isActive;
      rows := rows[id := rows[id].(webhookUrl := url, webhookSecret := secret, isActive := active', updatedAt := now)];
      cache := map k | k in cache && !(cache[k].record.Some? && cache[k].record.value.id == id) :: cache[k];
      return Some(rows[id]);
    }

    method DeleteDomain(id: string)
      requires Valid()
      modifies this
      ensures Valid()
      ensures rows == Apply(old(rows), Delete(id)) && cache == CacheAfterWrite(old(rows), old(cache), Delete(id))
    {
      WriteKeepsCoherent(rows, cache, Delete(id));
      rows := rows - {id};
      cache := map k | k in cache && !(cache[k].record.Some? && cache[k].record.value.id == id) :: cache[k];
    }

    method RenameDomain(o: string, n: string, othersOk: bool) returns (ok: bool)
      requires Valid()
      modifies this
      ensures Valid() && ok == Accepts(old(rows), Rename(o, n, othersOk))
      ensures rows == Apply(old(rows), Rename(o, n, othersOk))
      ensures cache == CacheAfterWrite(old(rows), old(cache), Rename(o, n, othersOk))
      ensures !ok ==> rows == old(rows) && cache == old(cache)
    {
      WriteKeepsCoherent(rows, cache, Rename(o, n, othersOk));
      RenameEffect(rows, cache, o, n, othersOk);
      if !othersOk || (o != n && Taken(rows, o) && Taken(rows, n)) {
        return false;
      }
      rows := Rekeyed(rows, o, n);
      cache := Unnamed(cache, o);
      return true;
    }

    /** The uncached read. */
    method SelectByDomain(domain: string) returns (r: Option<Record>)
      requires Valid()
      ensures r == ByDomain(rows, domain)
    {
      var rest := rows.Keys;
      while rest != {}
        invariant rest <= rows.Keys
        invariant forall id :: id in rows && id !in rest ==> rows[id].domain != domain
        decreases |rest|
      {
        var id :| id in rest;
        if rows[id].domain == domain {
          ByDomainIs(rows, id);
          return Some(rows[id]);
        }
        rest := rest - {id};
      }
      return None;
    }

    /** The cached lookup answers what the table holds. */
    method GetByName(domain: string, now: int) returns (r: Option<Record>)
      requires Valid()
      modifies this`cache
      ensures Valid() && r == ByDomain(rows, domain)
      ensures cache == if Hit(old(cache), domain, now) then old(cache) else Remember(old(cache), domain, r, now)
    {
      if domain in cache && now - cache[domain].at < CACHE_TTL && cache[domain].record.Some? {
        return cache[domain].record;
      }
      r := SelectByDomain(domain);
      if r.Some? {
        if |cache| > CACHE_PURGE_SIZE {
          cache := map k | k in cache && now - cache[k].at < CACHE_PURGE_AGE :: cache[k];
        }
        cache := cache[domain := Cached(now, r)];
      }
    }

    /**
     Registration: a domain owned by another system is refused, one owned by the same system is
     refreshed in place, a free one is inserted.  The refresh always finds its row.
     */
    method CreateDomain(id: string, systemId: string, domain: string, url: Option<string>, secret: Option<string>,
                        targetOk: bool, now: int) returns (r: Result)
      requires Valid()
      modifies this
      ensures Valid()
      ensures !targetOk <==> r == Err(BadTarget)
      ensures targetOk && ByDomain(old(rows), domain).Some? ==>
        var was := ByDomain(old(rows), domain).value;
        if was.systemId != systemId then r == Err(Conflict)
        else r == Ok(was.(webhookUrl := url, webhookSecret := secret, isActive := true, updatedAt := now))
      ensures targetOk && ByDomain(old(rows), domain).None? ==>
        r == if id in old(rows) then Err(ConstraintFailed) else Ok(Record(id, systemId, domain, url, secret, true, now))
      ensures r.Ok? ==> ByDomain(rows, domain) == Some(r.record)
      ensures r.Err? ==> rows == old(rows)
    {
      if !targetOk {
        return Err(BadTarget);
      }
      var existing := GetByName(domain, now);
      if existing.Some? {
        if existing.value.systemId != systemId {
          return Err(Conflict);
        }
        var updated := UpdateDomain(existing.value.id, url, secret, Some(true), now);
        if updated.None? {
          return Err(Internal);
        }
        ByDomainIs(rows, updated.value.id);
        return Ok(updated.value);
      }
      var created := Record(id, systemId, domain, url, secret, true, now);
      var ok := InsertDomain(created);
      if !ok {
        return Err(ConstraintFailed);
      }
      ByDomainIs(rows, id);
      return Ok(created);
    }
  }
}
