/**
 Which token a verification accepts, told by the history: the first credential a member was given, on the
 board of its latest listing, and for a plaintext row the window.
 */
module TokenHistory {
  import opened Options
  import opened BoardTokens

  /** The board of the latest listing of the email, or of its row at the start. */
  function BoardOf(start: Members, es: seq<Event>, n: nat, email: string): Option<string>
    requires n <= |es|
  {
    if n == 0 then if email in start then Some(start[email].board) else None
    else if es[n - 1].Add? && es[n - 1].email == email then Some(es[n - 1].member.board)
    else BoardOf(start, es, n - 1, email)
  }

  /** The first credential of the email: of its row at the start, or as passed in with its first listing. */
  function CredentialOf(start: Members, es: seq<Event>, n: nat, email: string): Option<Member>
    requires n <= |es|
  {
    if n == 0 then if email in start then Some(start[email]) else None
    else
      var before := CredentialOf(start, es, n - 1, email);
      if before == None && es[n - 1].Add? && es[n - 1].email == email then Some(es[n - 1].member) else before
  }

  /** The token is that of the credential: its plaintext, or a text with its digest. */
  predicate Fits(hash: Digest, m: Member, token: Text) {
    && m.token.Some?
    && (m.salt == None ==> m.token.value == token)
    && (m.salt.Some? ==> m.token.value == hash(token, m.salt.value))
  }

  /** The row at the start holds a plaintext token. */
  predicate Plain(start: Members, email: string) {
    email in start && start[email].salt == None
  }

  /** While the window was open, the plaintext token has been presented for the board of the time. */
  predicate Migrated(start: Members, es: seq<Event>, n: nat, email: string)
    requires n <= |es|
  {
    n > 0
    && (Migrated(start, es, n - 1, email)
        || (&& es[n - 1].Verify? && es[n - 1].email == email && email != "" && es[n - 1].open
            && BoardOf(start, es, n - 1, email) == Some(es[n - 1].board)
            && email in start && start[email].token == Some(es[n - 1].token) && es[n - 1].token != []))
  }

  /** What the history says of the row. */
  ghost predicate RowIs(hash: Digest, start: Members, es: seq<Event>, n: nat, email: string)
    requires n <= |es|
  {
    var ms, board, cred := After(hash, start, es, n), BoardOf(start, es, n, email), CredentialOf(start, es, n, email);
    && (email in ms <==> board.Some?) && (email in ms <==> cred.Some?)
    && (Plain(start, email) ==> email in ms && cred == Some(start[email]))
    && (email in ms ==>
          && ms[email].board == board.value
          && if Plain(start, email) && !Migrated(start, es, n, email)
             then ms[email].token == start[email].token && ms[email].salt == None
             else
               && ms[email].token.Some? == cred.value.token.Some?
               && (ms[email].token.Some? ==>
                     ms[email].salt.Some? && forall t :: Fits(hash, ms[email], t) <==> Fits(hash, cred.value, t)))
  }

  lemma StepRow(hash: Digest, start: Members, es: seq<Event>, n: nat, email: string)
    requires Injective(hash) && n < |es| && RowIs(hash, start, es, n, email)
    ensures RowIs(hash, start, es, n + 1, email)
  {
    var ms, e := After(hash, start, es, n), es[n];
    var ms' := Step(hash, ms, e);
    assert After(hash, start, es, n + 1) == ms';
    if e.email != email {
      assert email in ms' <==> email in ms;
      assert email in ms ==> ms'[email] == ms[email];
    }
  }

  lemma {:induction false} RowFromHistory(hash: Digest, start: Members, es: seq<Event>, n: nat, email: string)
    requires Injective(hash) && n <= |es|
    ensures RowIs(hash, start, es, n, email)
  {
    if n == 0 {
    } else {
      RowFromHistory(hash, start, es, n - 1, email);
      StepRow(hash, start, es, n - 1, email);
    }
  }

  /**
   In every run a token is accepted exactly when it is not empty, the board is that of the member's latest
   listing, the token fits its first credential, and, if that is still a plaintext row, the window is open.
   */
  lemma VerifiedIff(
      hash: Digest, start: Members, es: seq<Event>, n: nat, board: string, token: Text, email: string, open: bool)
    requires Injective(hash) && n <= |es|
    ensures var cred := CredentialOf(start, es, n, email);
      Verified(hash, After(hash, start, es, n), board, token, email, open) <==>
        && email != "" && token != [] && BoardOf(start, es, n, email) == Some(board)
        && cred.Some? && Fits(hash, cred.value, token)
        && (Plain(start, email) ==> open || Migrated(start, es, n, email))
  {
    RowFromHistory(hash, start, es, n, email);
    var ms := After(hash, start, es, n);
    if email in ms && ms[email].token.Some? {
      assert Fits(hash, ms[email], token) <==>
        if ms[email].salt.Some? then hash(token, ms[email].salt.value) == ms[email].token.value
        else token == ms[email].token.value;
    }
  }

  /** A token is accepted for one board at most, and told by the row: for that row's own board. */
  lemma OwnBoardOnly(
      hash: Digest, start: Members, es: seq<Event>, n: nat, a: string, b: string, token: Text, email: string,
      open: bool)
    requires Injective(hash) && n <= |es| && Verified(hash, After(hash, start, es, n), a, token, email, open)
    ensures var ms := After(hash, start, es, n);
      && email in ms && ms[email].board == a && token != []
      && (ms[email].salt.Some? ==> ms[email].token == Some(hash(token, ms[email].salt.value)))
      && (ms[email].salt == None ==> open && ms[email].token == Some(token))
    ensures a != b ==> !Verified(hash, After(hash, start, es, n), b, token, email, open)
  {
    VerifiedIff(hash, start, es, n, a, token, email, open);
    VerifiedIff(hash, start, es, n, b, token, email, open);
  }

  /** From an empty table: the token handed in at the member's first listing, and no other. */
  lemma FirstTokenOnly(hash: Digest, es: seq<Event>, n: nat, f: nat, board: string, token: Text, open: bool)
    requires Injective(hash) && f < n <= |es| && es[f].Add? && es[f].email != ""
    requires forall i :: 0 <= i < f && es[i].Add? ==> es[i].email != es[f].email
    requires es[f].member.token.Some? && es[f].member.salt == None
    ensures Verified(hash, After(hash, map[], es, n), board, token, es[f].email, open) <==>
      && token == es[f].member.token.value && token != []
      && BoardOf(map[], es, n, es[f].email) == Some(board)
  {
    VerifiedIff(hash, map[], es, n, board, token, es[f].email, open);
    FirstCredential(es, n, f);
  }

  lemma {:induction false} FirstCredential(es: seq<Event>, n: nat, f: nat)
    requires f < |es| && n <= |es| && es[f].Add?
    requires forall i :: 0 <= i < f && es[i].Add? ==> es[i].email != es[f].email
    ensures CredentialOf(map[], es, n, es[f].email) == if n <= f then None else Some(es[f].member)
  {
    if n == 0 {
    } else {
      FirstCredential(es, n - 1, f);
    }
  }

  // ── Listing and mailing, by field ─────────────────────────────────────

  /**
   A listing sets role and board.  A member already there keeps its credential, none included; a new one gets
   the pair passed in, or the digest of the plaintext passed in with the new salt.  Other members are untouched.
   */
  lemma ListingSets(hash: Digest, ms: Members, email: string, m: Member, salt: Text, other: string)
    ensures var after := Step(hash, ms, Add(email, m, salt));
      && email in after && after[email].role == m.role && after[email].board == m.board
      && (email in ms ==> after[email].token == ms[email].token && after[email].salt == ms[email].salt)
      && (email !in ms && m.token == None ==> after[email].token == None && after[email].salt == None)
      && (email !in ms && m.token.Some? && m.salt.Some? ==>
            after[email].token == m.token && after[email].salt == m.salt)
      && (email !in ms && m.token.Some? && m.salt == None ==>
            after[email].token == Some(hash(m.token.value, salt)) && after[email].salt == Some(salt))
      && (other != email ==> (other in after <==> other in ms) && (other in ms ==> after[other] == ms[other]))
  {
  }

  /**
   A token is mailed exactly when no role and no permission of the refresh is unknown, it was generated at a
   listing of the email, and the email had no credential on this board before.
   */
  lemma MailedIff(ms: Members, board: string, joiners: seq<Joiner>, permsOk: bool, email: string, token: Text)
    ensures (email, token) in Mailed(ms, board, joiners, permsOk) <==>
      && permsOk && (forall i :: 0 <= i < |joiners| ==> joiners[i].known)
      && email != "" && !(email in ms && ms[email].board == board && ms[email].token.Some?)
      && exists i :: 0 <= i < |joiners| && joiners[i].email == email && joiners[i].token == token
  {
    HandedIff(ms, board, joiners, (email, token));
    forall i | 0 <= i < |joiners| ensures joiners[i] in joiners {}
  }
}
