/**
 What each write and lookup does to rows and cache, told by fields; and how a domain comes to be registered,
 is freed, and stays free over every run.
 */
module DomainLifecycle {
  import opened Options
  import opened DomainCache

  // ── Writes, by field ──────────────────────────────────────────────────

  /** The other rows are as they were, and there are no new ones. */
  ghost predicate OthersSame(a: Table, b: Table, id: string) {
    forall x :: x != id ==> (x in b <==> x in a) && (x in a ==> b[x] == a[x])
  }

  /** A deletion takes the row away, whatever its fields, and frees its domain. */
  lemma DeletionFrees(rows: Table, id: string)
    requires TableOk(rows)
    ensures var after := Apply(rows, Delete(id));
      && id !in after && OthersSame(rows, after, id)
      && (id in rows ==> ByDomain(after, rows[id].domain) == None)
  {
    if id in rows {
      var after := Apply(rows, Delete(id));
      forall x | x in after ensures after[x].domain != rows[id].domain {}
    }
  }

  /** An update sets URL and secret even to nothing, keeps the flag when none is given, and nothing else changes. */
  lemma UpdateSets(
      rows: Table, id: string, url: Option<string>, secret: Option<string>, active: Option<bool>, now: int)
    requires TableOk(rows)
    ensures var after := Apply(rows, Update(id, url, secret, active, now));
      && after.Keys == rows.Keys && OthersSame(rows, after, id)
      && (id in rows ==>
            && after[id].id == rows[id].id && after[id].systemId == rows[id].systemId
            && after[id].domain == rows[id].domain
            && after[id].webhookUrl == url && after[id].webhookSecret == secret && after[id].updatedAt == now
            && (active == None ==> after[id].isActive == rows[id].isActive)
            && (active.Some? ==> after[id].isActive == active.value)
            && ByDomain(after, rows[id].domain) == Some(after[id]))
  {
    WriteKeepsTable(rows, Update(id, url, secret, active, now));
    if id in rows {
      ByDomainIs(Apply(rows, Update(id, url, secret, active, now)), id);
    }
  }

  lemma ByDomainIff(rows: Table, domain: string, id: string)
    requires TableOk(rows) && id in rows
    ensures ByDomain(rows, domain) == Some(rows[id]) <==> rows[id].domain == domain
  {
    ByDomainNamed(rows, domain);
  }

  lemma ByDomainNone(rows: Table, domain: string)
    ensures ByDomain(rows, domain) == None <==> forall id :: id in rows ==> rows[id].domain != domain
  {
  }

  /** A rename is refused by another table, or when both addresses have rows of their own. */
  lemma RenameRefusedIff(rows: Table, o: string, n: string, othersOk: bool)
    requires TableOk(rows)
    ensures !Accepts(rows, Rename(o, n, othersOk)) <==>
      !othersOk || (o != n && ByDomain(rows, o).Some? && ByDomain(rows, n).Some?)
    ensures !Accepts(rows, Rename(o, n, othersOk)) ==> Apply(rows, Rename(o, n, othersOk)) == rows
  {
  }

  /** An accepted one moves the record, all but its domain unchanged, and touches no other domain. */
  lemma RenameMoves(rows: Table, o: string, n: string, domain: string)
    requires TableOk(rows) && o != n && !(ByDomain(rows, o).Some? && ByDomain(rows, n).Some?)
    ensures var after := Apply(rows, Rename(o, n, true));
      ByDomain(after, domain) ==
        if domain == o then None
        else if domain == n && ByDomain(rows, o).Some? then Some(ByDomain(rows, o).value.(domain := n))
        else ByDomain(rows, domain)
  {
    var w := Rename(o, n, true);
    var after := Apply(rows, w);
    RenameRefusedIff(rows, o, n, true);
    WriteKeepsTable(rows, w);
    assert after.Keys == rows.Keys;
    if ByDomain(rows, o).Some? {
      ByDomainNamed(rows, o);
      var id := ByDomain(rows, o).value.id;
      assert after[id] == rows[id].(domain := n);
      ByDomainIff(after, n, id);
    }
    if domain != o && domain != n && ByDomain(rows, domain).Some? {
      ByDomainNamed(rows, domain);
      var id := ByDomain(rows, domain).value.id;
      ByDomainIff(after, domain, id);
    }
    if domain == n && ByDomain(rows, o).None? && ByDomain(rows, n).Some? {
      ByDomainNamed(rows, n);
      ByDomainIff(after, n, ByDomain(rows, n).value.id);
    }
  }

  /** An insert is refused exactly for an id or a domain in use; an accepted one is found under its domain. */
  lemma InsertRegisters(rows: Table, r: Record)
    requires TableOk(rows)
    ensures Accepts(rows, Insert(r)) <==> r.id !in rows && ByDomain(rows, r.domain) == None
    ensures Accepts(rows, Insert(r)) ==> ByDomain(Apply(rows, Insert(r)), r.domain) == Some(r)
    ensures OthersSame(rows, Apply(rows, Insert(r)), r.id)
  {
    ByDomainNone(rows, r.domain);
    if Accepts(rows, Insert(r)) {
      WriteKeepsTable(rows, Insert(r));
      ByDomainIs(Apply(rows, Insert(r)), r.id);
    }
  }

  // ── The cache, by entry ───────────────────────────────────────────────

  /** Deleting or updating a record takes at most the entry of its domain out of the cache. */
  lemma EvictsOwnEntry(rows: Table, cache: Cache, id: string, w: Write)
    requires Coherent(rows, cache) && (w.Delete? || w.Update?) && w.id == id
    ensures CacheAfterWrite(rows, cache, w) == if id in rows then cache - {rows[id].domain} else cache
  {
    forall k | k in cache ensures id in rows && k == rows[id].domain <==> cache[k].record.value.id == id {
      ByDomainNamed(rows, k);
      if id in rows {
        ByDomainIff(rows, k, id);
      }
    }
  }

  /** An accepted rename takes out the entry of the old address alone. */
  lemma RenameEvicts(rows: Table, cache: Cache, o: string, n: string, othersOk: bool)
    requires Coherent(rows, cache)
    ensures CacheAfterWrite(rows, cache, Rename(o, n, othersOk))
      == if Accepts(rows, Rename(o, n, othersOk)) then cache - {o} else cache
  {
    forall k | k in cache ensures cache[k].record.value.domain == o <==> k == o {
      ByDomainNamed(rows, k);
    }
  }

  /**
   A lookup leaves an entry younger than 30 seconds for a registered domain and none for another, and one that
   finds such an entry changes nothing.  Otherwise, if the domain is registered and the cache holds over 1000
   entries, exactly those of a minute or more are dropped.
   */
  lemma LookupLeaves(s: Store, domain: string, now: int)
    requires Coherent(s.rows, s.cache)
    ensures var s' := Step(s, Looked(domain, now)); var hit := domain in s.cache && now - s.cache[domain].at < 30_000;
      && s'.rows == s.rows && (hit ==> s' == s)
      && (domain in s'.cache <==> ByDomain(s.rows, domain).Some?)
      && (domain in s'.cache ==> s'.cache[domain].record == ByDomain(s.rows, domain))
      && (domain in s'.cache && !hit ==> s'.cache[domain].at == now)
      && forall k :: k != domain ==>
           && (k in s'.cache ==> k in s.cache && s'.cache[k] == s.cache[k])
           && (k in s.cache && k !in s'.cache <==>
                 && k in s.cache && domain in s'.cache && !hit && |s.cache| > 1000 && now - s.cache[k].at >= 60_000)
  {
  }

  // ── Registered and free ───────────────────────────────────────────────

  /** The write registers the domain: an accepted insert of it, or a rename of a stored domain onto it. */
  ghost predicate Registers(rows: Table, w: Write, domain: string) {
    || (w.Insert? && w.record.domain == domain && w.record.id !in rows)
    || (w.Rename? && w.newAddr == domain && w.oldAddr != domain && w.othersOk && ByDomain(rows, w.oldAddr).Some?)
  }

  /** The write frees the domain: its record is deleted, or renamed to an address without record. */
  ghost predicate Frees(rows: Table, w: Write, domain: string) {
    || (w.Delete? && w.id in rows && rows[w.id].domain == domain)
    || (w.Rename? && w.oldAddr == domain && w.newAddr != domain && w.othersOk && ByDomain(rows, w.newAddr).None?)
  }

  lemma RegistersIff(rows: Table, w: Write, domain: string)
    requires TableOk(rows) && ByDomain(rows, domain) == None
    ensures ByDomain(Apply(rows, w), domain).Some? <==> Registers(rows, w, domain)
  {
    ByDomainNone(rows, domain);
    ByDomainNone(Apply(rows, w), domain);
    match w
    case Insert(r) => InsertRegisters(rows, r);
    case Update(_, _, _, _, _) =>
    case Delete(_) =>
    case Rename(o, n, othersOk) =>
      RenameRefusedIff(rows, o, n, othersOk);
      if Accepts(rows, w) && o != n {
        RenameMoves(rows, o, n, domain);
      }
  }

  lemma FreesIff(rows: Table, w: Write, domain: string)
    requires TableOk(rows) && ByDomain(rows, domain).Some?
    ensures ByDomain(Apply(rows, w), domain) == None <==> Frees(rows, w, domain)
  {
    ByDomainNamed(rows, domain);
    var was := ByDomain(rows, domain).value;
    match w
    case Insert(r) =>
      if Accepts(rows, w) {
        WriteKeepsTable(rows, w);
        ByDomainIff(Apply(rows, w), domain, was.id);
      }
    case Update(id, url, secret, active, now) =>
      WriteKeepsTable(rows, w);
      ByDomainIff(Apply(rows, w), domain, was.id);
    case Delete(id) =>
      DeletionFrees(rows, id);
      if id != was.id {
        WriteKeepsTable(rows, w);
        ByDomainIff(Apply(rows, w), domain, was.id);
      }
    case Rename(o, n, othersOk) =>
      RenameRefusedIff(rows, o, n, othersOk);
      if Accepts(rows, w) && o != n {
        RenameMoves(rows, o, n, domain);
      } else {
        assert Apply(rows, w) == rows;
      }
  }

  ghost predicate FreeAt(rows: Table, es: seq<Event>, n: nat, domain: string)
    requires n <= |es|
  {
    ByDomain(After(rows, es, n).rows, domain) == None
  }

  /** None of these events registers the domain. */
  ghost predicate NotRegistered(rows: Table, es: seq<Event>, m: nat, n: nat, domain: string)
    requires m <= n <= |es|
  {
    forall i :: m <= i < n && es[i].Wrote? ==> !Registers(After(rows, es, i).rows, es[i].write, domain)
  }

  lemma StepStaysFree(s: Store, e: Event, domain: string)
    requires TableOk(s.rows) && ByDomain(s.rows, domain) == None
    requires e.Wrote? ==> !Registers(s.rows, e.write, domain)
    ensures ByDomain(Step(s, e).rows, domain) == None
  {
    if e.Wrote? {
      RegistersIff(s.rows, e.write, domain);
    }
  }

  lemma {:induction false} FreeThroughout(rows: Table, es: seq<Event>, m: nat, n: nat, domain: string)
    requires TableOk(rows) && m <= n <= |es| && FreeAt(rows, es, m, domain)
    requires NotRegistered(rows, es, m, n, domain)
    ensures FreeAt(rows, es, n, domain)
  {
    if n == m {
    } else {
      FreeThroughout(rows, es, m, n - 1, domain);
      RunCoherent(rows, es, n - 1);
      StepStaysFree(After(rows, es, n - 1), es[n - 1], domain);
    }
  }

  lemma InsertAnswered(s: Store, r: Record, now: int)
    requires Coherent(s.rows, s.cache) && r.id !in s.rows && ByDomain(s.rows, r.domain) == None
    ensures var s' := Step(s, Wrote(Insert(r))); s'.rows == s.rows[r.id := r] && Answer(s', r.domain, now) == Some(r)
  {
    InsertRegisters(s.rows, r);
  }

  lemma FreeAfterDeletion(rows: Table, es: seq<Event>, m: nat, n: nat, id: string, domain: string)
    requires TableOk(rows) && m < n <= |es| && es[m] == Wrote(Delete(id))
    requires id in After(rows, es, m).rows && After(rows, es, m).rows[id].domain == domain
    requires NotRegistered(rows, es, m + 1, n, domain)
    ensures FreeAt(rows, es, n, domain)
  {
    RunCoherent(rows, es, m);
    DeletionFrees(After(rows, es, m).rows, id);
    assert FreeAt(rows, es, m + 1, domain);
    FreeThroughout(rows, es, m + 1, n, domain);
  }

  /**
   A deleted record's domain is free until something registers it: every lookup, at any clock, answers none,
   and an insert of it by any system, under an id not in use, is accepted.
   */
  lemma DeletedStaysFree(
      rows: Table, es: seq<Event>, m: nat, n: nat, id: string, domain: string, r: Record, now: int)
    requires TableOk(rows) && m < n <= |es| && es[m] == Wrote(Delete(id))
    requires id in After(rows, es, m).rows && After(rows, es, m).rows[id].domain == domain
    requires NotRegistered(rows, es, m + 1, n, domain)
    requires r.domain == domain && r.id !in After(rows, es, n).rows
    ensures Answer(After(rows, es, n), domain, now) == None
    ensures var s := Step(After(rows, es, n), Wrote(Insert(r)));
      s.rows == After(rows, es, n).rows[r.id := r] && Answer(s, domain, now) == Some(r)
  {
    RunCoherent(rows, es, n);
    FreeAfterDeletion(rows, es, m, n, id, domain);
    LookupIsTableRead(rows, es, n, domain, now);
    InsertAnswered(After(rows, es, n), r, now);
  }
}
