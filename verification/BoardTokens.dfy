/**
 Board member tokens: verification with lazy migration of plaintext rows, and member upserts.
 The digest is a parameter; `Injective` is collision-freedom for one salt.
 */
module BoardTokens {
  import opened Options

  type Text = seq<bv8>

  /** The stored form of a token: digest of token, separator and salt. */
  type Digest = (Text, Text) -> Text

  ghost predicate Injective(hash: Digest) {
    forall a, b, salt :: hash(a, salt) == hash(b, salt) ==> a == b
  }

  /** A row of `board_members`, keyed by email; a row without salt holds a plaintext token. */
  datatype Member = Member(role: string, board: string, token: Option<Text>, salt: Option<Text>)

  type Members = map<string, Member>

  // ── Comparison ────────────────────────────────────────────────────────

  lemma XorZero(d: bv8, x: bv8, y: bv8)
    ensures d | (x ^ y) == 0 <==> d == 0 && x == y
  {
  }

  /** The comparison folds every byte, and its verdict is equality. */
  method ConstantTimeEq(a: Text, b: Text) returns (eq: bool)
    ensures eq <==> a == b
  {
    if |a| != |b| {
      return false;
    }
    var diff: bv8 := 0;
    for i := 0 to |a|
      invariant diff == 0 <==> a[..i] == b[..i]
    {
      XorZero(diff, a[i], b[i]);
      assert a[..i + 1] == a[..i] + [a[i]] && b[..i + 1] == b[..i] + [b[i]];
      diff := diff | (a[i] ^ b[i]);
    }
    assert a[..|a|] == a && b[..|b|] == b;
    return diff == 0;
  }

  // ── Operations ────────────────────────────────────────────────────────

  /** Does the row accept the token? */
  predicate Accepts(hash: Digest, m: Member, board: string, token: Text, open: bool) {
    && token != [] && m.board == board && m.token.Some?
    && match m.salt
       case Some(salt) => hash(token, salt) == m.token.value
       case None => open && token == m.token.value
  }

  /** Does this verification rewrite the row? */
  predicate Migrates(hash: Digest, m: Member, board: string, token: Text, open: bool) {
    m.salt.None? && Accepts(hash, m, board, token, open)
  }

  predicate Verified(hash: Digest, ms: Members, board: string, token: Text, email: string, open: bool) {
    email != "" && email in ms && Accepts(hash, ms[email], board, token, open)
  }

  function AfterVerify(hash: Digest, ms: Members, board: string, token: Text, email: string, open: bool, salt: Text)
    : Members
  {
    if email != "" && email in ms && Migrates(hash, ms[email], board, token, open)
    then ms[email := ms[email].(token := Some(hash(token, salt)), salt := Some(salt))]
    else ms
  }

  /** Insert, or update everything but the credential; a raw token is stored hashed with a new salt. */
  function Upsert(hash: Digest, ms: Members, email: string, m: Member, salt: Text): Members {
    if email in ms then ms[email := ms[email].(role := m.role, board := m.board)]
    else ms[email := match m.token
      case None => m.(token := None, salt := None)
      case Some(t) => if m.salt.Some? then m else m.(token := Some(hash(t, salt)), salt := Some(salt))]
  }

  /** One entry of a refresh: a known role or not, and the token and salt to use if one is generated. */
  datatype Joiner = Joiner(email: string, role: string, known: bool, token: Text, salt: Text)

  predicate HasCredential(ms: Members, board: string, email: string) {
    email in ms && ms[email].board == board && ms[email].token.Some?
  }

  /** The table after a refresh; an unknown role stops it where it stands. */
  function JoinAll(hash: Digest, ms: Members, board: string, joiners: seq<Joiner>): Members
    decreases |joiners|
  {
    if joiners == [] || !joiners[0].known then ms
    else JoinAll(hash, JoinOne(hash, ms, board, joiners[0]), board, joiners[1..])
  }

  function JoinOne(hash: Digest, ms: Members, board: string, j: Joiner): Members {
    if j.email == "" then ms
    else Upsert(hash, ms, j.email, Member(j.role, board, Some(j.token), None), j.salt)
  }

  /** The tokens a refresh hands out: one for each listed member that has no credential on this board. */
  function Handed(ms: Members, board: string, joiners: seq<Joiner>): seq<(string, Text)> {
    if joiners == [] then [] else
      var j := joiners[|joiners| - 1];
      Handed(ms, board, joiners[..|joiners| - 1])
      + if j.email != "" && !HasCredential(ms, board, j.email) then [(j.email, j.token)] else []
  }

  predicate AllKnown(joiners: seq<Joiner>) {
    forall j :: j in joiners ==> j.known
  }

  /** What is mailed: nothing if a role, or a role or verb of the permission override, is unknown. */
  function Mailed(ms: Members, board: string, joiners: seq<Joiner>, permsOk: bool): seq<(string, Text)> {
    if AllKnown(joiners) && permsOk then Handed(ms, board, joiners) else []
  }

  class MemberTable {
    const hash: Digest
    var members: Members

    constructor (hash: Digest)
      ensures this.hash == hash && members == map[]
    {
      this.hash, members := hash, map[];
    }

    method VerifyToken(board: string, token: Text, email: string, open: bool, salt: Text) returns (ok: bool)
      modifies this`members
      ensures ok == Verified(hash, old(members), board, token, email, open)
      ensures members == AfterVerify(hash, old(members), board, token, email, open, salt)
    {
      if email == "" || token == [] {
        return false;
      }
      if email !in members || members[email].board != board || members[email].token.None? {
        return false;
      }
      var stored := members[email].token.value;
      match members[email].salt
      case Some(rowSalt) =>
        ok := ConstantTimeEq(hash(token, rowSalt), stored);
      case None =>
        if !open {
          return false;
        }
        ok := ConstantTimeEq(token, stored);
        if ok {
          members := members[email := members[email].(token := Some(hash(token, salt)), salt := Some(salt))];
        }
    }

    method AddMember(email: string, m: Member, salt: Text)
      modifies this`members
      ensures members == Upsert(hash, old(members), email, m, salt)
    {
      var (token, rowSalt) := match (m.token, m.salt)
        case (Some(raw), None) => (Some(hash(raw, salt)), Some(salt))
        case (Some(stored), s) => (Some(stored), s)
        case (None, _) => (None, None);
      if email in members {
        members := members[email := members[email].(role := m.role, board := m.board)];
      } else {
        members := members[email := Member(m.role, m.board, token, rowSalt)];
      }
    }

    /** Existing credentials are passed back as stored; only members without one are handed a new token. */
    method Refresh(board: string, joiners: seq<Joiner>, permsOk: bool) returns (ok: bool, mailed: seq<(string, Text)>)
      modifies this`members
      ensures members == JoinAll(hash, old(members), board, joiners)
      ensures ok <==> AllKnown(joiners) && permsOk
      ensures mailed == Mailed(old(members), board, joiners, permsOk)
    {
      var handed := [];
      ghost var before := members;
      var creds := map e | e in members && members[e].board == board && members[e].token.Some? ::
        (members[e].token, members[e].salt);
      for i := 0 to |joiners|
        invariant JoinAll(hash, members, board, joiners[i..]) == JoinAll(hash, before, board, joiners)
        invariant forall e :: e in creds ==> e in members
        invariant forall k :: 0 <= k < i ==> joiners[k].known
        invariant handed == Handed(before, board, joiners[..i])
      {
        var j := joiners[i];
        assert joiners[..i + 1][..i] == joiners[..i];
        assert joiners[i..][0] == j && joiners[i..][1..] == joiners[i + 1..];
        if !j.known {
          return false, [];
        }
        if j.email != "" {
          if j.email in creds {
            AddMember(j.email, Member(j.role, board, creds[j.email].0, creds[j.email].1), j.salt);
          } else {
            handed := handed + [(j.email, j.token)];
            AddMember(j.email, Member(j.role, board, Some(j.token), None), j.salt);
          }
        }
      }
      assert joiners[..|joiners|] == joiners;
      if !permsOk {
        return false, [];
      }
      return true, handed;
    }
  }

  // ── Whole runs ────────────────────────────────────────────────────────

  datatype Event =
    | Verify(board: string, token: Text, email: string, open: bool, salt: Text)
    | Add(email: string, member: Member, salt: Text)

  function Step(hash: Digest, ms: Members, e: Event): Members {
    match e
    case Verify(board, token, email, open, salt) => AfterVerify(hash, ms, board, token, email, open, salt)
    case Add(email, m, salt) => Upsert(hash, ms, email, m, salt)
  }

  function After(hash: Digest, start: Members, es: seq<Event>, n: nat): Members
    requires n <= |es|
  {
    if n == 0 then start else Step(hash, After(hash, start, es, n - 1), es[n - 1])
  }

  /** No upsert moves this member to another board. */
  ghost predicate StaysOn(es: seq<Event>, email: string, board: string) {
    forall i :: 0 <= i < |es| && es[i].Add? && es[i].email == email ==> es[i].member.board == board
  }

  lemma StepKeepsAccepted(hash: Digest, ms: Members, e: Event, email: string, board: string, token: Text)
    requires Injective(hash) && email in ms && ms[email].board == board
    requires e.Add? && e.email == email ==> e.member.board == board
    ensures var ms' := Step(hash, ms, e);
      && email in ms' && ms'[email].board == board
      && (Accepts(hash, ms'[email], board, token, true) <==> Accepts(hash, ms[email], board, token, true))
  {
  }

  /** The tokens a member's row accepts while the window is open never change, whatever is verified or refreshed. */
  lemma {:induction false} AcceptedConstant(
      hash: Digest, start: Members, es: seq<Event>, n: nat, email: string, board: string, token: Text)
    requires Injective(hash) && n <= |es| && StaysOn(es, email, board)
    requires email in start && start[email].board == board
    ensures var ms := After(hash, start, es, n);
      && email in ms && ms[email].board == board
      && (Accepts(hash, ms[email], board, token, true) <==> Accepts(hash, start[email], board, token, true))
  {
    if n == 0 {
    } else {
      AcceptedConstant(hash, start, es, n - 1, email, board, token);
      StepKeepsAccepted(hash, After(hash, start, es, n - 1), es[n - 1], email, board, token);
    }
  }

  /** With the window closed a plaintext row accepts nothing, and no credential is ever rewritten. */
  lemma {:induction false} ClosedWindow(hash: Digest, start: Members, es: seq<Event>, n: nat, email: string)
    requires n <= |es| && email in start
    requires forall i :: 0 <= i < |es| && es[i].Verify? ==> !es[i].open
    ensures var ms := After(hash, start, es, n);
      && email in ms && ms[email].token == start[email].token && ms[email].salt == start[email].salt
      && (start[email].salt.None? ==> forall board, token :: !Verified(hash, ms, board, token, email, false))
  {
    if n == 0 {
    } else {
      ClosedWindow(hash, start, es, n - 1, email);
    }
  }

  /** A row is rewritten at most once: from the first accepted plaintext token on, its credential is fixed. */
  lemma {:induction false} MigratedOnce(hash: Digest, start: Members, es: seq<Event>, n: nat, email: string)
    requires n <= |es| && email in start && start[email].salt.Some?
    ensures var ms := After(hash, start, es, n);
      email in ms && ms[email].token == start[email].token && ms[email].salt == start[email].salt
  {
    if n == 0 {
    } else {
      MigratedOnce(hash, start, es, n - 1, email);
    }
  }

  lemma {:induction false} JoinKeepsCredential(
      hash: Digest, ms: Members, board: string, joiners: seq<Joiner>, email: string)
    requires email in ms
    ensures var after := JoinAll(hash, ms, board, joiners);
      && email in after && after[email].token == ms[email].token && after[email].salt == ms[email].salt
      && (ms[email].board == board ==> after[email].board == board)
    decreases |joiners|
  {
    if joiners == [] || !joiners[0].known {
    } else {
      JoinKeepsCredential(hash, JoinOne(hash, ms, board, joiners[0]), board, joiners[1..], email);
    }
  }

  // ── Which handed tokens work ──────────────────────────────────────────

  /** Position of the first listing of an email (the length if it is not listed). */
  function First(joiners: seq<Joiner>, email: string): nat {
    if joiners == [] || joiners[0].email == email then 0 else 1 + First(joiners[1..], email)
  }

  lemma {:induction false} FirstIsFirst(joiners: seq<Joiner>, email: string)
    ensures First(joiners, email) <= |joiners|
    ensures First(joiners, email) < |joiners| ==> joiners[First(joiners, email)].email == email
    ensures forall k :: 0 <= k < First(joiners, email) ==> joiners[k].email != email
  {
    if joiners == [] || joiners[0].email == email {
    } else {
      FirstIsFirst(joiners[1..], email);
      forall k | 0 <= k < First(joiners, email) ensures joiners[k].email != email {
        assert k > 0 ==> joiners[k] == joiners[1..][k - 1];
      }
    }
  }

  /** How many entries are processed before an unknown role. */
  function Reached(joiners: seq<Joiner>): nat {
    if joiners == [] || !joiners[0].known then 0 else 1 + Reached(joiners[1..])
  }

  lemma {:induction false} AllReached(joiners: seq<Joiner>)
    ensures Reached(joiners) <= |joiners|
    ensures AllKnown(joiners) <==> Reached(joiners) == |joiners|
  {
    if joiners == [] {
    } else {
      AllReached(joiners[1..]);
      assert joiners == [joiners[0]] + joiners[1..];
    }
  }

  /** The row of a listed email after a refresh: what was there, moved to this board, or its first listing's. */
  lemma {:induction false} JoinedRow(hash: Digest, ms: Members, board: string, joiners: seq<Joiner>, email: string)
    requires email != ""
    ensures var after, i := JoinAll(hash, ms, board, joiners), First(joiners, email);
      if i < Reached(joiners) then
        && email in after && after[email].board == board && i < |joiners|
        && (email in ms ==> after[email].token == ms[email].token && after[email].salt == ms[email].salt)
        && (email !in ms ==> after[email].token == Some(hash(joiners[i].token, joiners[i].salt)))
        && (email !in ms ==> after[email].salt == Some(joiners[i].salt))
      else
        (email in after <==> email in ms) && (email in ms ==> after[email] == ms[email])
    decreases |joiners|
  {
    if joiners == [] || !joiners[0].known {
    } else {
      AllReached(joiners);
      var next := JoinOne(hash, ms, board, joiners[0]);
      JoinedRow(hash, next, board, joiners[1..], email);
      if joiners[0].email == email {
        JoinKeepsCredential(hash, next, board, joiners[1..], email);
      }
    }
  }

  lemma {:induction false} KnownReached(joiners: seq<Joiner>, i: nat)
    requires i < |joiners| && forall k :: 0 <= k <= i ==> joiners[k].known
    ensures i < Reached(joiners)
  {
    if i == 0 {
    } else {
      KnownReached(joiners[1..], i - 1);
    }
  }

  /** A member new to the table can use the token generated at its first listing. */
  lemma NewMemberToken(hash: Digest, ms: Members, board: string, joiners: seq<Joiner>, i: nat)
    requires i < |joiners| && joiners[i].email != "" && joiners[i].token != []
    requires joiners[i].email !in ms && forall k :: 0 <= k <= i ==> joiners[k].known
    requires forall k :: 0 <= k < i ==> joiners[k].email != joiners[i].email
    ensures Verified(hash, JoinAll(hash, ms, board, joiners), board, joiners[i].token, joiners[i].email, false)
  {
    FirstIsFirst(joiners, joiners[i].email);
    KnownReached(joiners, i);
    JoinedRow(hash, ms, board, joiners, joiners[i].email);
  }

  lemma {:induction false} HandedIff(ms: Members, board: string, joiners: seq<Joiner>, h: (string, Text))
    ensures h in Handed(ms, board, joiners) <==>
      && h.0 != "" && !HasCredential(ms, board, h.0)
      && exists i :: 0 <= i < |joiners| && joiners[i].email == h.0 && joiners[i].token == h.1
  {
    if joiners == [] {
    } else {
      var init, j := joiners[..|joiners| - 1], joiners[|joiners| - 1];
      HandedIff(ms, board, init, h);
      assert joiners == init + [j];
      if i :| 0 <= i < |init| && init[i].email == h.0 && init[i].token == h.1 {
        assert joiners[i] == init[i];
      }
    }
  }

  /**
   The token handed out at listing `i` works after a completed refresh exactly when it is the token of its
   email's first listing and the email had no row, or when the row already there accepts it.
   */
  lemma HandedAcceptedIff(
      hash: Digest, ms: Members, board: string, joiners: seq<Joiner>, i: nat, open: bool)
    requires Injective(hash) && AllKnown(joiners) && i < |joiners|
    requires joiners[i].email != "" && !HasCredential(ms, board, joiners[i].email)
    ensures var email, token := joiners[i].email, joiners[i].token;
      && (email, token) in Handed(ms, board, joiners)
      && First(joiners, email) < |joiners|
      && (Verified(hash, JoinAll(hash, ms, board, joiners), board, token, email, open) <==>
            if email in ms then Accepts(hash, ms[email].(board := board), board, token, open)
            else token != [] && token == joiners[First(joiners, email)].token)
  {
    var email := joiners[i].email;
    FirstIsFirst(joiners, email);
    AllReached(joiners);
    JoinedRow(hash, ms, board, joiners, email);
    HandedIff(ms, board, joiners, (email, joiners[i].token));
  }

  /** A new member listed twice is handed two tokens, and the second, unless equal, is never accepted. */
  lemma SecondListingRejected(
      hash: Digest, ms: Members, board: string, joiners: seq<Joiner>, i: nat, k: nat, open: bool)
    requires Injective(hash) && AllKnown(joiners) && i < k < |joiners|
    requires joiners[i].email != "" && joiners[k].email == joiners[i].email
    requires joiners[i].email !in ms && i == First(joiners, joiners[i].email)
    requires joiners[i].token != [] && joiners[k].token != joiners[i].token
    ensures (joiners[i].email, joiners[i].token) in Handed(ms, board, joiners)
    ensures (joiners[k].email, joiners[k].token) in Handed(ms, board, joiners)
    ensures Verified(hash, JoinAll(hash, ms, board, joiners), board, joiners[i].token, joiners[i].email, open)
    ensures !Verified(hash, JoinAll(hash, ms, board, joiners), board, joiners[k].token, joiners[k].email, open)
  {
    HandedAcceptedIff(hash, ms, board, joiners, i, open);
    HandedAcceptedIff(hash, ms, board, joiners, k, open);
  }

  /** A refresh creates the row of this member, and mails it no token that works. */
  ghost predicate Stranded(
      hash: Digest, ms: Members, board: string, joiners: seq<Joiner>, permsOk: bool, email: string)
  {
    var after := JoinAll(hash, ms, board, joiners);
    email !in ms && email in after
    && forall h :: h in Mailed(ms, board, joiners, permsOk) && h.0 == email ==>
         !Verified(hash, after, board, h.1, email, false)
  }

  /** Exactly when: the refresh is refused after the member's entry was processed. */
  lemma StrandedIff(hash: Digest, ms: Members, board: string, joiners: seq<Joiner>, permsOk: bool, email: string)
    requires Injective(hash) && email != "" && forall j :: j in joiners ==> j.token != []
    ensures Stranded(hash, ms, board, joiners, permsOk, email) <==>
      && email !in ms && First(joiners, email) < Reached(joiners)
      && !(AllKnown(joiners) && permsOk)
  {
    JoinedRow(hash, ms, board, joiners, email);
    AllReached(joiners);
    var i := First(joiners, email);
    FirstIsFirst(joiners, email);
    if email !in ms && i < Reached(joiners) && AllKnown(joiners) && permsOk {
      HandedAcceptedIff(hash, ms, board, joiners, i, false);
      assert (email, joiners[i].token) in Mailed(ms, board, joiners, permsOk);
    }
  }

  /** A row that has a credential keeps it over every run on its board, so no later refresh hands it a token. */
  lemma {:induction false} NeverHandedAgain(
      hash: Digest, start: Members, es: seq<Event>, n: nat, email: string, board: string, joiners: seq<Joiner>)
    requires n <= |es| && StaysOn(es, email, board) && HasCredential(start, board, email)
    ensures HasCredential(After(hash, start, es, n), board, email)
    ensures forall h :: h in Handed(After(hash, start, es, n), board, joiners) ==> h.0 != email
  {
    if n == 0 {
    } else {
      NeverHandedAgain(hash, start, es, n - 1, email, board, joiners);
    }
    forall h | h in Handed(After(hash, start, es, n), board, joiners) ensures h.0 != email {
      HandedIff(After(hash, start, es, n), board, joiners, h);
    }
  }

  /** In particular a stranded member: the credential nobody was mailed stays. */
  lemma StrandedForGood(
      hash: Digest, ms: Members, board: string, joiners: seq<Joiner>, permsOk: bool, email: string,
      es: seq<Event>, n: nat, later: seq<Joiner>)
    requires email != "" && Stranded(hash, ms, board, joiners, permsOk, email)
    requires n <= |es| && StaysOn(es, email, board)
    ensures forall h ::
      h in Handed(After(hash, JoinAll(hash, ms, board, joiners), es, n), board, later) ==> h.0 != email
  {
    JoinedRow(hash, ms, board, joiners, email);
    NeverHandedAgain(hash, JoinAll(hash, ms, board, joiners), es, n, email, board, later);
  }

  // ── Renaming a member's address ───────────────────────────────────────

  /** The row is copied without its salt, unless the new address has a row, and the old row is deleted. */
  function RenameMember(ms: Members, from: string, to: string): Members {
    (if from in ms && to !in ms then ms[to := ms[from].(salt := None)] else ms) - {from}
  }

  /**
   A renamed member keeps its tokens exactly when its row held a plaintext token: the copy of a hashed row
   takes the digest for the token.  (The other case is a token that is its own digest.)
   */
  lemma RenameKeepsTokensIff(hash: Digest, ms: Members, from: string, to: string, board: string, token: Text)
    requires Injective(hash) && from in ms && to !in ms && Accepts(hash, ms[from], board, token, true)
    ensures var after := RenameMember(ms, from, to);
      && to in after && from !in after
      && ((forall t :: Accepts(hash, after[to], board, t, true) <==> Accepts(hash, ms[from], board, t, true)) <==>
          ms[from].salt.None? || token == ms[from].token.value)
  {
    var after := RenameMember(ms, from, to);
    assert Accepts(hash, after[to], board, token, true) <==> token == ms[from].token.value;
  }

  /** With the window closed the copy accepts nothing at all. */
  lemma RenamedClosed(hash: Digest, ms: Members, from: string, to: string)
    requires from in ms && to !in ms
    ensures forall board, token :: !Verified(hash, RenameMember(ms, from, to), board, token, to, false)
  {
  }
}
