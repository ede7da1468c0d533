/**
 The identity of an outgoing mail for duplicate suppression: the byte stream fed to the 64-bit hash.
 Recipients are sorted, so their order does not matter; the stream determines sender, recipients,
 subject and body digest.  Hash collisions are outside the model of the stream.
 */
module DedupKey {
  import opened Basics
  import opened Framing

  type Text = seq<byte>

  const FNV_OFFSET: bv64 := 0xcbf2_9ce4_8422_2325

  // ── Sorting recipients ────────────────────────────────────────────────

  /** Byte-wise lexicographic order. */
  predicate Le(a: Text, b: Text) {
    a == [] || (b != [] && (a[0] < b[0] || (a[0] == b[0] && Le(a[1..], b[1..]))))
  }

  lemma {:induction false} LeTotal(a: Text, b: Text)
    ensures Le(a, b) || Le(b, a)
  {
    if a == [] || b == [] {
    } else {
      LeTotal(a[1..], b[1..]);
    }
  }

  lemma {:induction false} LeAntisymmetric(a: Text, b: Text)
    requires Le(a, b) && Le(b, a)
    ensures a == b
  {
    if a == [] {
    } else {
      LeAntisymmetric(a[1..], b[1..]);
      assert a == [a[0]] + a[1..] && b == [b[0]] + b[1..];
    }
  }

  lemma {:induction false} LeTransitive(a: Text, b: Text, c: Text)
    requires Le(a, b) && Le(b, c)
    ensures Le(a, c)
  {
    if a != [] && a[0] == b[0] && b[0] == c[0] {
      LeTransitive(a[1..], b[1..], c[1..]);
    }
  }

  /** The first byte in which the two differ is `i`, and it is smaller in `a`. */
  predicate LessAt(a: Text, b: Text, i: nat) {
    i < |a| && i < |b| && a[..i] == b[..i] && a[i] < b[i]
  }

  lemma LessAtShift(a: Text, b: Text, i: nat)
    requires a != [] && b != [] && a[0] == b[0]
    ensures LessAt(a, b, i + 1) <==> LessAt(a[1..], b[1..], i)
    ensures !LessAt(a, b, 0)
  {
    if i + 1 < |a| && i + 1 < |b| {
      assert a[..i + 1] == [a[0]] + a[1..][..i] && b[..i + 1] == [b[0]] + b[1..][..i];
      assert a[1..][..i] == a[..i + 1][1..] && b[1..][..i] == b[..i + 1][1..];
    }
  }

  lemma SameStart(a: Text, b: Text, i: nat)
    requires i < |a| && i < |b| && a[..i] == b[..i]
    ensures i > 0 ==> a[0] == b[0]
  {
    if i > 0 {
      assert a[0] == a[..i][0] == b[..i][0] == b[0];
    }
  }

  /** A prefix comes first; otherwise the first byte in which the two differ decides. */
  lemma {:induction false} LeIff(a: Text, b: Text)
    ensures Le(a, b) <==> a <= b || exists i: nat :: LessAt(a, b, i)
  {
    if a == [] || b == [] {
    } else if a[0] == b[0] {
      LeIff(a[1..], b[1..]);
      assert a == [a[0]] + a[1..] && b == [b[0]] + b[1..];
      if i: nat :| LessAt(a, b, i) {
        LessAtShift(a, b, i - 1);
      }
      if i: nat :| LessAt(a[1..], b[1..], i) {
        LessAtShift(a, b, i);
      }
    } else {
      assert LessAt(a, b, 0) <==> a[0] < b[0];
      forall i: nat | LessAt(a, b, i) ensures i == 0 {
        SameStart(a, b, i);
      }
    }
  }

  predicate Sorted(xs: seq<Text>) {
    |xs| <= 1 || (Le(xs[0], xs[1]) && Sorted(xs[1..]))
  }

  function Insert(x: Text, xs: seq<Text>): seq<Text> {
    if xs == [] || Le(x, xs[0]) then [x] + xs else [xs[0]] + Insert(x, xs[1..])
  }

  function Sort(xs: seq<Text>): seq<Text> {
    if xs == [] then [] else Insert(xs[0], Sort(xs[1..]))
  }

  lemma {:induction false} InsertSorts(x: Text, xs: seq<Text>)
    requires Sorted(xs)
    ensures Sorted(Insert(x, xs)) && multiset(Insert(x, xs)) == multiset(xs) + multiset{x}
  {
    if xs == [] {
    } else if Le(x, xs[0]) {
      assert ([x] + xs)[1..] == xs;
    } else {
      LeTotal(x, xs[0]);
      InsertSorts(x, xs[1..]);
      var r := Insert(x, xs[1..]);
      assert ([xs[0]] + r)[1..] == r;
      assert xs == [xs[0]] + xs[1..];
    }
  }

  lemma {:induction false} SortSorts(xs: seq<Text>)
    ensures Sorted(Sort(xs)) && multiset(Sort(xs)) == multiset(xs)
  {
    if xs == [] {
    } else {
      SortSorts(xs[1..]);
      InsertSorts(xs[0], Sort(xs[1..]));
      assert xs == [xs[0]] + xs[1..];
    }
  }

  lemma {:induction false} HeadIsLeast(xs: seq<Text>, y: Text)
    requires Sorted(xs) && y in xs
    ensures Le(xs[0], y)
  {
    if y == xs[0] {
      LeTotal(y, y);
    } else {
      assert xs == [xs[0]] + xs[1..];
      HeadIsLeast(xs[1..], y);
      LeTransitive(xs[0], xs[1], y);
    }
  }

  lemma TailMultiset(xs: seq<Text>)
    requires xs != []
    ensures multiset(xs) == multiset(xs[1..]) + multiset{xs[0]}
    ensures forall x :: x in multiset(xs) <==> x in xs
  {
    assert xs == [xs[0]] + xs[1..];
  }

  /** A list has one sorted arrangement. */
  lemma {:induction false} SortedUnique(xs: seq<Text>, ys: seq<Text>)
    requires Sorted(xs) && Sorted(ys) && multiset(xs) == multiset(ys)
    ensures xs == ys
  {
    if xs == [] {
      assert |multiset(ys)| == 0;
    } else {
      assert |multiset(ys)| == |multiset(xs)|;
      TailMultiset(xs);
      TailMultiset(ys);
      assert ys[0] in multiset(xs) && xs[0] in multiset(ys);
      HeadIsLeast(xs, ys[0]);
      HeadIsLeast(ys, xs[0]);
      LeAntisymmetric(xs[0], ys[0]);
      TailsAgree(xs, ys);
      SortedUnique(xs[1..], ys[1..]);
      assert xs == [xs[0]] + xs[1..] && ys == [ys[0]] + ys[1..];
    }
  }

  lemma TailsAgree(xs: seq<Text>, ys: seq<Text>)
    requires xs != [] && ys != [] && xs[0] == ys[0] && multiset(xs) == multiset(ys)
    ensures multiset(xs[1..]) == multiset(ys[1..])
  {
    TailMultiset(xs);
    TailMultiset(ys);
    assert multiset(xs[1..]) == multiset(xs) - multiset{xs[0]};
  }

  // ── The stream ────────────────────────────────────────────────────────

  /** A SHA-256 digest. */
  type Digest = d: Text | |d| == 32 witness seq(32, _ => 0)

  datatype Mail = Mail(sender: Text, to: seq<Text>, cc: seq<Text>, subject: Text, bodyDigest: Digest)

  const NUL: byte := 0

  function Stream(m: Mail): Text {
    m.sender + [NUL]
    + (Frames(NUL, Sort(m.to)) + [NUL]
    + (Frames(NUL, Sort(m.cc)) + [NUL]
    + (m.subject + [NUL] + m.bodyDigest)))
  }

  /** The order of recipients within `to` and within `cc` does not matter. */
  lemma StreamIgnoresOrder(a: Mail, b: Mail)
    requires a.sender == b.sender && a.subject == b.subject && a.bodyDigest == b.bodyDigest
    requires multiset(a.to) == multiset(b.to) && multiset(a.cc) == multiset(b.cc)
    ensures Stream(a) == Stream(b)
  {
    SortSorts(a.to);
    SortSorts(b.to);
    SortedUnique(Sort(a.to), Sort(b.to));
    SortSorts(a.cc);
    SortSorts(b.cc);
    SortedUnique(Sort(a.cc), Sort(b.cc));
  }

  // ── Reading the stream back ───────────────────────────────────────────

  predicate NulFree(m: Mail) {
    && NUL !in m.sender && NUL !in m.subject
    && (forall a :: a in m.to ==> NUL !in a)
    && (forall a :: a in m.cc ==> NUL !in a)
  }

  /** Equal up to the order of recipients. */
  predicate SameMail(a: Mail, b: Mail) {
    && a.sender == b.sender && a.subject == b.subject && a.bodyDigest == b.bodyDigest
    && multiset(a.to) == multiset(b.to) && multiset(a.cc) == multiset(b.cc)
  }

  /** Some `to` address is not empty, or no address at all is. */
  predicate Anchored(m: Mail) {
    (exists a :: a in m.to && a != []) || ([] !in m.to && [] !in m.cc)
  }

  /** The recipients of a mail as they appear between sender and subject, without the last separator. */
  function Lists(to: seq<Text>, cc: seq<Text>): seq<Text> {
    Sort(to) + [[]] + Sort(cc)
  }

  function Fields(m: Mail): seq<Text> {
    [m.sender] + Lists(m.to, m.cc) + [[], m.subject]
  }

  lemma FramesLists(to: seq<Text>, cc: seq<Text>)
    ensures Frames(NUL, Lists(to, cc)) == Frames(NUL, Sort(to)) + [NUL] + Frames(NUL, Sort(cc))
  {
    FramesOne([]);
    FramesConcat(NUL, Sort(to), [[]]);
    FramesConcat(NUL, Sort(to) + [[]], Sort(cc));
  }

  lemma FramesFields(m: Mail)
    ensures Frames(NUL, Fields(m))
      == (m.sender + [NUL]) + Frames(NUL, Lists(m.to, m.cc)) + ([NUL] + (m.subject + [NUL]))
  {
    var e: Text := [];
    assert Frames(NUL, [e, m.subject]) == [NUL] + (m.subject + [NUL]) by {
      FramesOne(e);
      FramesOne(m.subject);
      assert [e, m.subject][1..] == [m.subject];
    }
    FramesOne(m.sender);
    FramesConcat(NUL, [m.sender], Lists(m.to, m.cc));
    FramesConcat(NUL, [m.sender] + Lists(m.to, m.cc), [e, m.subject]);
  }

  lemma Regroup(a: Text, b: Text, c: Text, d: Text, z: Text, g: Text)
    ensures (a + z) + (b + z + c) + (z + (d + z)) + g == a + z + (b + z + (c + z + (d + z + g)))
  {
  }

  /** The stream is its NUL-closed fields, the two list ends among them as empty fields, and the digest. */
  lemma StreamFields(m: Mail)
    ensures Stream(m) == Frames(NUL, Fields(m)) + m.bodyDigest
  {
    FramesFields(m);
    FramesLists(m.to, m.cc);
    Regroup(m.sender, Frames(NUL, Sort(m.to)), Frames(NUL, Sort(m.cc)), m.subject, [NUL], m.bodyDigest);
  }

  lemma FramesOne(x: Text)
    ensures Frames(NUL, [x]) == x + [NUL]
  {
    assert [x][1..] == [];
    assert x + [NUL] + [] == x + [NUL];
  }

  lemma SortMembers(xs: seq<Text>)
    ensures forall x :: x in Sort(xs) <==> x in xs
    ensures |Sort(xs)| == |xs| && Sorted(Sort(xs)) && multiset(Sort(xs)) == multiset(xs)
  {
    SortSorts(xs);
    forall x ensures x in Sort(xs) <==> x in xs {
      assert x in Sort(xs) <==> x in multiset(Sort(xs));
      assert x in xs <==> x in multiset(xs);
    }
    assert |multiset(Sort(xs))| == |multiset(xs)|;
  }

  lemma FieldsNulFree(m: Mail)
    requires NulFree(m)
    ensures forall f :: f in Fields(m) ==> NUL !in f
  {
    SortMembers(m.to);
    SortMembers(m.cc);
  }

  lemma SameFields(a: Mail, b: Mail)
    requires NulFree(a) && NulFree(b) && Stream(a) == Stream(b)
    ensures a.sender == b.sender && a.subject == b.subject && a.bodyDigest == b.bodyDigest
    ensures Lists(a.to, a.cc) == Lists(b.to, b.cc)
  {
    StreamFields(a);
    StreamFields(b);
    var fa, fb := Frames(NUL, Fields(a)), Frames(NUL, Fields(b));
    assert |fa| == |fb|;
    assert fa == Stream(a)[..|fa|] && fb == Stream(b)[..|fa|];
    assert a.bodyDigest == Stream(a)[|fa|..] && b.bodyDigest == Stream(b)[|fa|..];
    FieldsNulFree(a);
    FieldsNulFree(b);
    FieldsUnique(NUL, Fields(a), Fields(b));
    var x, y := Fields(a), Fields(b);
    assert x[0] == a.sender && y[0] == b.sender && x[|x| - 1] == a.subject && y[|y| - 1] == b.subject;
    assert Lists(a.to, a.cc) == x[1..|x| - 2] && Lists(b.to, b.cc) == y[1..|y| - 2];
  }

  /** In a sorted list everything in front of an empty text is empty. */
  lemma {:induction false} EmptyInFront(xs: seq<Text>, i: nat, j: nat)
    requires Sorted(xs) && j <= i < |xs| && xs[i] == []
    ensures xs[j] == []
  {
    if j == 0 {
      HeadIsLeast(xs, xs[i]);
    } else {
      EmptyInFront(xs[1..], i - 1, j - 1);
    }
  }

  predicate AllEmpty(xs: seq<Text>) {
    forall x :: x in xs ==> x == []
  }

  lemma ShorterSplit(t: seq<Text>, c: seq<Text>, t': seq<Text>, c': seq<Text>)
    requires Sorted(t') && Sorted(c') && t + [[]] + c == t' + [[]] + c' && |t| < |t'|
    ensures AllEmpty(t) && [] in c && [] in t'
  {
    var m, p, p' := t + [[]] + c, |t|, |t'|;
    assert m[p] == [] && t'[p] == (t' + [[]] + c')[p];
    forall i | 0 <= i < p ensures t[i] == [] {
      assert t[i] == m[i] && t'[i] == (t' + [[]] + c')[i];
      EmptyInFront(t', p, i);
    }
    assert (t' + [[]] + c')[p'] == [] && m[p'] == c[p' - p - 1];
  }

  lemma LongerSplit(t: seq<Text>, c: seq<Text>, t': seq<Text>, c': seq<Text>)
    requires Sorted(t) && Sorted(c') && t + [[]] + c == t' + [[]] + c' && |t'| < |t|
    ensures AllEmpty(t) && [] in t
  {
    var m, p, p' := t + [[]] + c, |t|, |t'|;
    var m' := t' + [[]] + c';
    assert t[p'] == m[p'] == m'[p'] == [];
    var d := p - p' - 1;
    assert c'[d] == m'[p] == m[p] == [];
    forall i | 0 <= i <= p' ensures t[i] == [] {
      EmptyInFront(t, p', i);
    }
    forall i | p' < i < p ensures t[i] == [] {
      assert t[i] == m[i] == m'[i] == c'[i - p' - 1];
      EmptyInFront(c', d, i - p' - 1);
    }
  }

  /** Where the first list ends is settled if that list holds a non-empty text, or neither holds an empty one. */
  lemma SplitPoint(t: seq<Text>, c: seq<Text>, t': seq<Text>, c': seq<Text>)
    requires Sorted(t) && Sorted(t') && Sorted(c') && t + [[]] + c == t' + [[]] + c'
    requires !AllEmpty(t) || ([] !in t && [] !in c)
    ensures t == t' && c == c'
  {
    if |t| < |t'| {
      ShorterSplit(t, c, t', c');
    } else if |t'| < |t| {
      LongerSplit(t, c, t', c');
    } else {
      var m, m' := t + [[]] + c, t' + [[]] + c';
      assert t == m[..|t|] && t' == m'[..|t|];
      assert c == m[|t| + 1..] && c' == m'[|t| + 1..];
    }
  }

  /** Equal streams mean equal mails, up to recipient order, if one of them is anchored. */
  lemma StreamDeterminesMail(a: Mail, b: Mail)
    requires NulFree(a) && NulFree(b) && Anchored(a) && Stream(a) == Stream(b)
    ensures SameMail(a, b)
  {
    SameFields(a, b);
    SortMembers(a.to);
    SortMembers(a.cc);
    SortMembers(b.to);
    SortMembers(b.cc);
    SplitPoint(Sort(a.to), Sort(a.cc), Sort(b.to), Sort(b.cc));
  }

  lemma EmptyFirst(xs: seq<Text>)
    ensures Sort([[]] + xs) == [[]] + Sort(xs)
  {
    assert ([[]] + xs)[1..] == xs;
  }

  lemma EmptyCommutes(xs: seq<Text>, ys: seq<Text>)
    requires AllEmpty(xs)
    ensures xs + [[]] + ([[]] + ys) == [[]] + xs + [[]] + ys
  {
    assert forall i :: 0 <= i < |xs| ==> xs[i] in xs;
  }

  lemma MoveFromTo(to: seq<Text>, cc: seq<Text>)
    requires to != [] && AllEmpty(to)
    ensures Lists(to[1..], [[]] + cc) == Lists(to, cc)
  {
    assert to[0] in to && to == [to[0]] + to[1..];
    EmptyFirst(to[1..]);
    EmptyFirst(cc);
    SortMembers(to[1..]);
    assert forall x :: x in to[1..] ==> x in to;
    EmptyCommutes(Sort(to[1..]), Sort(cc));
  }

  /** Arrangements of the same recipients sort to the same list. */
  lemma SortSame(xs: seq<Text>, ys: seq<Text>)
    requires multiset(xs) == multiset(ys)
    ensures Sort(xs) == Sort(ys)
  {
    SortSorts(xs);
    SortSorts(ys);
    SortedUnique(Sort(xs), Sort(ys));
  }

  lemma MoveFromCc(cc: seq<Text>, i: nat)
    requires i < |cc| && cc[i] == []
    ensures Lists([[]], cc[..i] + cc[i + 1..]) == Lists([], cc)
  {
    var e: Text := [];
    var rest := cc[..i] + cc[i + 1..];
    assert Sort([e] + rest) == Sort(cc) by {
      assert cc == cc[..i] + [e] + cc[i + 1..];
      SortSame([e] + rest, cc);
    }
    EmptyFirst(rest);
    EmptyFirst([]);
    assert [e] + [] == [e];
  }

  /** Otherwise an empty address can move between the lists without changing a byte. */
  lemma EmptyAddressMoves(a: Mail) returns (b: Mail)
    requires NulFree(a) && !Anchored(a)
    ensures NulFree(b) && Stream(b) == Stream(a) && |b.to| != |a.to|
  {
    if a.to != [] {
      MoveFromTo(a.to, a.cc);
      b := a.(to := a.to[1..], cc := [[]] + a.cc);
    } else {
      var i :| 0 <= i < |a.cc| && a.cc[i] == [];
      MoveFromCc(a.cc, i);
      b := a.(to := [[]], cc := a.cc[..i] + a.cc[i + 1..]);
    }
    StreamFields(a);
    StreamFields(b);
  }

  /** The stream of a mail identifies it among all NUL-free mails exactly when it is anchored. */
  lemma IdentifiesIff(a: Mail)
    requires NulFree(a)
    ensures (forall b :: NulFree(b) && Stream(b) == Stream(a) ==> SameMail(a, b)) <==> Anchored(a)
  {
    if Anchored(a) {
      forall b | NulFree(b) && Stream(b) == Stream(a) ensures SameMail(a, b) {
        StreamDeterminesMail(a, b);
      }
    } else {
      var b := EmptyAddressMoves(a);
      assert |multiset(a.to)| == |a.to| && |multiset(b.to)| == |b.to|;
      assert !SameMail(a, b);
    }
  }

  // ── The hash over the stream ──────────────────────────────────────────

  /** Multiplication by the FNV prime, wrapping. */
  function Scale(x: bv64): bv64 {
    x * 0x100_0000_01b3
  }

  function MixByte(h: bv64, b: byte): bv64 {
    Scale(h ^ (b as bv64))
  }

  /** Feeding bytes one at a time into a state. */
  function Feed<S>(step: (S, byte) -> S, h: S, bytes: Text): S {
    if bytes == [] then h else step(Feed(step, h, bytes[..|bytes| - 1]), bytes[|bytes| - 1])
  }

  lemma {:induction false} FeedConcat<S>(step: (S, byte) -> S, h: S, a: Text, b: Text)
    ensures Feed(step, h, a + b) == Feed(step, Feed(step, h, a), b)
  {
    if b == [] {
      assert a + b == a;
    } else {
      var c := a + b;
      assert c[..|c| - 1] == a + b[..|b| - 1] && c[|c| - 1] == b[|b| - 1];
      FeedConcat(step, h, a, b[..|b| - 1]);
    }
  }

  lemma FeedSnoc<S>(step: (S, byte) -> S, h: S, bytes: Text, i: nat)
    requires i < |bytes|
    ensures Feed(step, h, bytes[..i + 1]) == step(Feed(step, h, bytes[..i]), bytes[i])
  {
    assert bytes[..i + 1][..i] == bytes[..i];
  }

  /** FNV-1a over a whole byte string, from a given state. */
  function Fnv(h: bv64, bytes: Text): bv64 {
    Feed(MixByte, h, bytes)
  }

  lemma FnvConcat(h: bv64, a: Text, b: Text)
    ensures Fnv(h, a + b) == Fnv(Fnv(h, a), b)
  {
    FeedConcat(MixByte, h, a, b);
  }

  method Mix(h0: bv64, bytes: Text) returns (h: bv64)
    ensures h == Fnv(h0, bytes)
  {
    h := h0;
    for i := 0 to |bytes|
      invariant h == Fnv(h0, bytes[..i])
    {
      FeedSnoc(MixByte, h0, bytes, i);
      h := MixByte(h, bytes[i]);
    }
    assert bytes[..|bytes|] == bytes;
  }

  lemma {:induction false} FramesSnoc(xs: seq<Text>, x: Text)
    ensures Frames(NUL, xs + [x]) == Frames(NUL, xs) + (x + [NUL])
  {
    if xs == [] {
      assert [] + [x] == [x] && [x][1..] == [];
    } else {
      FramesSnoc(xs[1..], x);
      assert (xs + [x])[1..] == xs[1..] + [x];
    }
  }

  lemma FnvField(h0: bv64, sorted: seq<Text>, i: nat)
    requires i < |sorted|
    ensures Fnv(Fnv(Fnv(h0, Frames(NUL, sorted[..i])), sorted[i]), [NUL]) == Fnv(h0, Frames(NUL, sorted[..i + 1]))
  {
    var piece := Frames(NUL, sorted[..i]);
    FnvConcat(Fnv(h0, piece), sorted[i], [NUL]);
    FnvConcat(h0, piece, sorted[i] + [NUL]);
    FramesSnoc(sorted[..i], sorted[i]);
    assert sorted[..i + 1] == sorted[..i] + [sorted[i]];
  }

  method MixList(h0: bv64, list: seq<Text>) returns (h: bv64)
    ensures h == Fnv(h0, Frames(NUL, Sort(list)) + [NUL])
  {
    var sorted := Sort(list);
    h := h0;
    for i := 0 to |sorted|
      invariant h == Fnv(h0, Frames(NUL, sorted[..i]))
    {
      h := Mix(h, sorted[i]);
      h := Mix(h, [NUL]);
      FnvField(h0, sorted, i);
    }
    assert sorted[..|sorted|] == sorted;
    FnvConcat(h0, Frames(NUL, sorted), [NUL]);
    h := Mix(h, [NUL]);
  }

  function KeyOf(m: Mail): bv64 {
    Fnv(FNV_OFFSET, Stream(m))
  }

  /** Mixing field after field is hashing the stream. */
  method HashKey(m: Mail) returns (h: bv64)
    ensures h == KeyOf(m)
  {
    h := Mix(FNV_OFFSET, m.sender);
    h := Mix(h, [NUL]);
    FnvConcat(FNV_OFFSET, m.sender, [NUL]);
    h := MixList(h, m.to);
    h := MixList(h, m.cc);
    h := Mix(h, m.subject);
    h := Mix(h, [NUL]);
    h := Mix(h, m.bodyDigest);
    var tail := m.subject + [NUL] + m.bodyDigest;
    var to, cc := Frames(NUL, Sort(m.to)) + [NUL], Frames(NUL, Sort(m.cc)) + [NUL];
    var h1 := Fnv(FNV_OFFSET, m.sender + [NUL]);
    FnvConcat(Fnv(Fnv(h1, to), cc), m.subject, [NUL]);
    FnvConcat(Fnv(Fnv(h1, to), cc), m.subject + [NUL], m.bodyDigest);
    FnvConcat(Fnv(h1, to), cc, tail);
    FnvConcat(h1, to, cc + tail);
    FnvConcat(FNV_OFFSET, m.sender + [NUL], to + (cc + tail));
    assert Stream(m) == m.sender + [NUL] + (to + (cc + tail));
  }
}
