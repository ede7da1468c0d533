/**
 Duplicate suppression at its call sites: addresses in `to` are never empty, while `cc` addresses may be
 empty and any recipient or subject may hold a NUL.  Two mails share a stream exactly when they share
 the texts between NULs; without NULs that makes them the same mail.
 */
module DedupPieces {
  import opened Basics
  import opened Framing
  import opened DedupKey

  /** Both callers drop empty `to` addresses; the sender is the address of an API key. */
  predicate Receivable(m: Mail) {
    [] !in m.to && NUL !in m.sender
  }

  /** For mails without NUL, as the callers pass them, the stream identifies the mail. */
  lemma CallersIdentify(a: Mail, b: Mail)
    requires Receivable(a) && Receivable(b) && NulFree(a) && NulFree(b) && Stream(a) == Stream(b)
    ensures SameMail(a, b)
  {
    if a.to != [] {
      assert a.to[0] in a.to;
      StreamDeterminesMail(a, b);
    } else if b.to != [] {
      assert b.to[0] in b.to;
      StreamDeterminesMail(b, a);
    } else {
      SameFields(a, b);
      var x, y := Lists(a.to, a.cc), Lists(b.to, b.cc);
      assert Sort(a.cc) == x[1..] && Sort(b.cc) == y[1..];
      SortSorts(a.cc);
      SortSorts(b.cc);
    }
  }

  // ── The texts between NULs ────────────────────────────────────────────

  /** A text cut at its NULs; never an empty list. */
  function Split(x: Text): (ps: seq<Text>)
    ensures ps != []
  {
    if x == [] then [[]]
    else
      var rest := Split(x[1..]);
      if x[0] == NUL then [[]] + rest else [[x[0]] + rest[0]] + rest[1..]
  }

  lemma {:induction false} FramesHead(c: byte, rest: seq<Text>)
    requires rest != []
    ensures Frames(NUL, [[c] + rest[0]] + rest[1..]) == [c] + Frames(NUL, rest)
  {
    var ps := [[c] + rest[0]] + rest[1..];
    assert ps[1..] == rest[1..];
    assert [c] + rest[0] + [NUL] + Frames(NUL, rest[1..]) == [c] + (rest[0] + [NUL] + Frames(NUL, rest[1..]));
  }

  lemma {:induction false} SplitFrames(x: Text)
    ensures Frames(NUL, Split(x)) == x + [NUL]
    ensures forall p :: p in Split(x) ==> NUL !in p
  {
    if x == [] {
      FramesOne([]);
      assert [] + [NUL] == x + [NUL];
    } else {
      var rest := Split(x[1..]);
      SplitFrames(x[1..]);
      assert x + [NUL] == [x[0]] + (x[1..] + [NUL]);
      if x[0] == NUL {
        assert ([[]] + rest)[1..] == rest;
      } else {
        FramesHead(x[0], rest);
        assert rest[0] in rest;
      }
    }
  }

  /** A text without NUL is its only piece, and only such a text has one piece. */
  lemma {:induction false} OnePieceIff(x: Text)
    ensures NUL !in x <==> |Split(x)| == 1
    ensures NUL !in x ==> Split(x) == [x]
  {
    if x == [] {
    } else {
      OnePieceIff(x[1..]);
      assert x == [x[0]] + x[1..];
    }
  }

  function SplitAll(xs: seq<Text>): seq<Text> {
    if xs == [] then [] else Split(xs[0]) + SplitAll(xs[1..])
  }

  lemma {:induction false} SplitAllFrames(xs: seq<Text>)
    ensures Frames(NUL, SplitAll(xs)) == Frames(NUL, xs)
    ensures forall p :: p in SplitAll(xs) ==> NUL !in p
  {
    if xs == [] {
    } else {
      SplitFrames(xs[0]);
      SplitAllFrames(xs[1..]);
      FramesConcat(NUL, Split(xs[0]), SplitAll(xs[1..]));
    }
  }

  lemma {:induction false} SplitAllConcat(xs: seq<Text>, ys: seq<Text>)
    ensures SplitAll(xs + ys) == SplitAll(xs) + SplitAll(ys)
  {
    if xs == [] {
      assert xs + ys == ys;
    } else {
      var first, rest := Split(xs[0]), SplitAll(xs[1..]);
      assert SplitAll(xs + ys) == first + (rest + SplitAll(ys)) by {
        SplitAllConcat(xs[1..], ys);
        assert (xs + ys)[1..] == xs[1..] + ys;
      }
      Associates(first, rest, SplitAll(ys));
    }
  }

  lemma Associates(a: seq<Text>, b: seq<Text>, c: seq<Text>)
    ensures a + (b + c) == a + b + c
  {
  }

  lemma {:induction false} SplitAllNulFree(xs: seq<Text>)
    requires forall x :: x in xs ==> NUL !in x
    ensures SplitAll(xs) == xs
  {
    if xs == [] {
    } else {
      OnePieceIff(xs[0]);
      SplitAllNulFree(xs[1..]);
    }
  }

  lemma {:induction false} SplitAllSize(xs: seq<Text>)
    ensures |SplitAll(xs)| >= |xs|
    ensures |SplitAll(xs)| == |xs| ==> SplitAll(xs) == xs
  {
    if xs == [] {
    } else {
      OnePieceIff(xs[0]);
      SplitAllSize(xs[1..]);
    }
  }

  function Pieces(m: Mail): seq<Text> {
    SplitAll(Fields(m))
  }

  /** Exactly which mails share a stream, NULs or not: those with the same pieces and the same digest. */
  lemma SameStreamIff(a: Mail, b: Mail)
    ensures Stream(a) == Stream(b) <==> Pieces(a) == Pieces(b) && a.bodyDigest == b.bodyDigest
  {
    StreamFields(a);
    StreamFields(b);
    SplitAllFrames(Fields(a));
    SplitAllFrames(Fields(b));
    var fa, fb := Frames(NUL, Fields(a)), Frames(NUL, Fields(b));
    if Stream(a) == Stream(b) {
      assert |fa| == |fb|;
      assert fa == Stream(a)[..|fa|] && fb == Stream(b)[..|fa|];
      assert a.bodyDigest == Stream(a)[|fa|..] && b.bodyDigest == Stream(b)[|fa|..];
      FieldsUnique(NUL, Pieces(a), Pieces(b));
    }
  }

  // ── What a NUL can confuse ──────────────────────────────────────────────

  /** A mail that can be received, and another with a NUL in its subject that is taken for it. */
  lemma NulConfuses(sender: Text, x: Text, c: Text, subject: Text, digest: Digest)
    requires NUL !in sender && NUL !in x && NUL !in c && NUL !in subject && x != []
    ensures var a := Mail(sender, [x], [[], c], subject, digest);
      var b := Mail(sender, [x], [], c + [NUL, NUL] + subject, digest);
      Receivable(a) && Receivable(b) && NulFree(a) && !SameMail(a, b) && Stream(a) == Stream(b)
  {
    var a := Mail(sender, [x], [[], c], subject, digest);
    var b := Mail(sender, [x], [], c + [NUL, NUL] + subject, digest);
    EmptyFirst([c]);
    assert [[]] + [c] == [[], c];
    assert Sort([c]) == [c] by {
      assert [c][1..] == [];
    }
    FramesOne(c);
    assert Frames(NUL, [[], c]) == [NUL] + (c + [NUL]) by {
      assert [[], c][1..] == [c];
    }
    var tail := subject + [NUL] + digest;
    assert Frames(NUL, Sort(a.cc)) + [NUL] + tail == [NUL] + (c + [NUL, NUL] + subject + [NUL] + digest);
    assert Frames(NUL, Sort(b.cc)) == [];
    assert |multiset(a.cc)| == 2 && |multiset(b.cc)| == 0;
  }

  // ── Exactly which mails a NUL cannot confuse ────────────────────────────

  /** At most one recipient on each side, and none of them empty. */
  predicate Plain(m: Mail) {
    |m.to| <= 1 && |m.cc| <= 1 && [] !in m.cc
  }

  /** The pieces between sender and end, list by list. */
  function Parts(to: seq<Text>, cc: seq<Text>, subject: seq<Text>): seq<Text> {
    to + [[]] + cc + [[]] + subject
  }

  lemma PiecesParts(m: Mail)
    requires NUL !in m.sender
    ensures Pieces(m) == [m.sender] + Parts(SplitAll(Sort(m.to)), SplitAll(Sort(m.cc)), Split(m.subject))
  {
    var e: Text := [];
    var to, cc := Sort(m.to), Sort(m.cc);
    assert SplitAll([m.sender]) == [m.sender] && SplitAll([e]) == [e] && SplitAll([m.subject]) == Split(m.subject) by {
      OnePieceIff(m.sender);
      SplitAllNulFree([m.sender]);
      SplitAllNulFree([e]);
      assert [m.subject][1..] == [] && Split(m.subject) + [] == Split(m.subject);
    }
    assert Fields(m) == [m.sender] + (to + [e] + cc + [e] + [m.subject]);
    SplitAllConcat([m.sender], to + [e] + cc + [e] + [m.subject]);
    SplitAllConcat(to + [e] + cc + [e], [m.subject]);
    SplitAllConcat(to + [e] + cc, [e]);
    SplitAllConcat(to + [e], cc);
    SplitAllConcat(to, [e]);
  }

  /** Short lists of non-empty texts are read back from their parts, even by a reader who allows NULs. */
  lemma PartsUnique(t: seq<Text>, c: seq<Text>, s: Text, t': seq<Text>, c': seq<Text>, s': seq<Text>)
    requires Parts(t, c, [s]) == Parts(t', c', s') && |t| <= 1 && |c| <= 1 && [] !in t && [] !in c
    requires s' != [] && t' != [[]]
    ensures t' == t && c' == c && s' == [s]
  {
    var p, p' := Parts(t, c, [s]), Parts(t', c', s');
    assert |p| == |t| + |c| + 3 && |p'| == |t'| + |c'| + 2 + |s'|;
    assert p'[|t'|] == [] && p'[|t'| + 1 + |c'|] == [];
    assert |t| == 1 ==> p[0] == t[0] && p[0] in t;
    assert |c| == 1 ==> p[|t| + 1] == c[0] && p[|t| + 1] in c;
    assert |t'| == 1 ==> t' == [p'[0]];
    assert |t| == |t'| && |c| == |c'|;
    assert t == p[..|t|] && t' == p'[..|t|];
    assert c == p[|t| + 1..|t| + 1 + |c|] && c' == p'[|t| + 1..|t| + 1 + |c|];
    assert [s] == p[|t| + |c| + 2..] && s' == p'[|t| + |c| + 2..];
  }

  lemma SplitListUnique(xs: seq<Text>, ys: seq<Text>)
    requires |xs| <= 1 && (forall x :: x in xs ==> NUL !in x) && SplitAll(Sort(ys)) == SplitAll(Sort(xs))
    ensures multiset(xs) == multiset(ys)
  {
    SortMembers(xs);
    SortMembers(ys);
    SplitAllNulFree(Sort(xs));
    SplitAllSize(Sort(ys));
    assert Sort(ys) == [] ==> SplitAll(Sort(ys)) == [];
  }

  lemma PlainIdentified(a: Mail, b: Mail)
    requires Receivable(a) && NulFree(a) && Plain(a) && Receivable(b) && Stream(a) == Stream(b)
    ensures SameMail(a, b)
  {
    SameStreamIff(a, b);
    PiecesParts(a);
    PiecesParts(b);
    SortMembers(a.to);
    SortMembers(a.cc);
    SortMembers(b.to);
    SplitAllNulFree(Sort(a.to));
    SplitAllNulFree(Sort(a.cc));
    OnePieceIff(a.subject);
    OnePieceIff(b.subject);
    var t', c' := SplitAll(Sort(b.to)), SplitAll(Sort(b.cc));
    assert a.sender == Pieces(a)[0] && b.sender == Pieces(b)[0];
    assert Pieces(a)[1..] == Parts(Sort(a.to), Sort(a.cc), [a.subject]);
    assert Pieces(b)[1..] == Parts(t', c', Split(b.subject));
    assert t' != [[]] by {
      SplitAllSize(Sort(b.to));
      assert Sort(b.to) != [] ==> Sort(b.to)[0] in Sort(b.to);
    }
    PartsUnique(Sort(a.to), Sort(a.cc), a.subject, t', c', Split(b.subject));
    SplitListUnique(a.to, b.to);
    SplitListUnique(a.cc, b.cc);
  }

  // Two recipients of a list can be taken for one with a NUL inside.

  lemma {:induction false} LePrefix(x: Text, z: Text)
    ensures Le(x, x + z)
  {
    if x == [] {
    } else {
      LePrefix(x[1..], z);
      assert (x + z)[1..] == x[1..] + z;
    }
  }

  lemma {:induction false} SortedLonger(xs: seq<Text>, x: Text, y: Text, z: Text)
    requires Sorted(xs + [x, y])
    ensures Sorted(xs + [x + z])
  {
    if xs == [] {
    } else {
      assert (xs + [x, y])[1..] == xs[1..] + [x, y] && (xs + [x + z])[1..] == xs[1..] + [x + z];
      SortedLonger(xs[1..], x, y, z);
      if |xs| == 1 {
        LePrefix(x, z);
        LeTransitive(xs[0], x, x + z);
      }
    }
  }

  /** The last two recipients, in sorted order, joined by a NUL. */
  function Merged(xs: seq<Text>): (ys: seq<Text>)
    requires |Sort(xs)| >= 2
    ensures |ys| == |Sort(xs)| - 1
  {
    var n := |Sort(xs)| - 2;
    Sort(xs)[..n] + [Sort(xs)[n] + ([NUL] + Sort(xs)[n + 1])]
  }

  lemma FramesTwo(init: seq<Text>, x: Text, y: Text)
    ensures Frames(NUL, init + [x, y]) == Frames(NUL, init + [x + ([NUL] + y)])
  {
    FramesConcat(NUL, init, [x, y]);
    FramesConcat(NUL, init, [x + ([NUL] + y)]);
    FramesOne(y);
    FramesOne(x + ([NUL] + y));
    assert [x, y][1..] == [y];
    assert x + [NUL] + (y + [NUL]) == x + ([NUL] + y) + [NUL];
  }

  lemma {:induction false} MergedSorted(xs: seq<Text>)
    requires |Sort(xs)| >= 2
    ensures Sort(Merged(xs)) == Merged(xs)
  {
    var ys, n := Sort(xs), |Sort(xs)| - 2;
    assert Sorted(ys[..n] + [ys[n], ys[n + 1]]) by {
      SortSorts(xs);
      assert ys == ys[..n] + [ys[n], ys[n + 1]];
    }
    SortedLonger(ys[..n], ys[n], ys[n + 1], [NUL] + ys[n + 1]);
    SortSorts(Merged(xs));
    SortedUnique(Sort(Merged(xs)), Merged(xs));
  }

  lemma {:induction false} MergedFrames(xs: seq<Text>)
    requires |Sort(xs)| >= 2
    ensures Frames(NUL, Merged(xs)) == Frames(NUL, Sort(xs))
  {
    var ys, n := Sort(xs), |Sort(xs)| - 2;
    FramesTwo(ys[..n], ys[n], ys[n + 1]);
    assert ys == ys[..n] + [ys[n], ys[n + 1]];
  }

  lemma {:induction false} MergedSame(xs: seq<Text>)
    requires |xs| >= 2
    ensures |Sort(xs)| == |xs|
    ensures Frames(NUL, Sort(Merged(xs))) == Frames(NUL, Sort(xs))
    ensures [] !in xs ==> [] !in Merged(xs)
  {
    SortMembers(xs);
    MergedSorted(xs);
    MergedFrames(xs);
  }

  lemma DifferentSize(a: Mail, b: Mail)
    requires |a.to| != |b.to| || |a.cc| != |b.cc|
    ensures !SameMail(a, b)
  {
    assert |multiset(a.to)| == |a.to| && |multiset(b.to)| == |b.to|;
    assert |multiset(a.cc)| == |a.cc| && |multiset(b.cc)| == |b.cc|;
  }

  lemma Confused(a: Mail) returns (b: Mail)
    requires Receivable(a) && !Plain(a)
    ensures Receivable(b) && Stream(b) == Stream(a) && !SameMail(a, b)
  {
    if |a.to| >= 2 {
      MergedSame(a.to);
      b := a.(to := Merged(a.to));
    } else if |a.cc| >= 2 {
      MergedSame(a.cc);
      b := a.(cc := Merged(a.cc));
    } else {
      b := a.(cc := [], subject := [NUL] + a.subject);
      var e: Text := [];
      assert a.cc == [e] && [e] + [] == [e];
      EmptyFirst([]);
      FramesOne([]);
      var d := a.bodyDigest;
      assert [NUL] + [NUL] + (a.subject + [NUL] + d) == [NUL] + ([NUL] + a.subject + [NUL] + d);
    }
    DifferentSize(a, b);
  }

  /**
   Among all mails that can be received, NULs and all, the stream of a NUL-free mail identifies it
   exactly when it has at most one recipient on each side and no empty one.
   */
  lemma UnconfusedIff(a: Mail)
    requires Receivable(a) && NulFree(a)
    ensures (forall b :: Receivable(b) && Stream(b) == Stream(a) ==> SameMail(a, b)) <==> Plain(a)
  {
    if Plain(a) {
      forall b | Receivable(b) && Stream(b) == Stream(a) ensures SameMail(a, b) {
        PlainIdentified(a, b);
      }
    } else {
      var b := Confused(a);
    }
  }
}
