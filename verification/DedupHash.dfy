/** What the 64-bit hash cannot confuse: states after the same bytes, and streams one byte apart. */
module DedupHash {
  import opened Basics
  import opened DedupKey

  // ── A mixing step can be undone ───────────────────────────────────────

  /** Multiplication by the inverse of the prime modulo 2^64. */
  function Unscale(x: bv64): bv64 {
    x * 0xce96_5057_aff6_957b
  }

  lemma Unscaled(x: bv64)
    ensures Unscale(Scale(x)) == x
  {
    assert Unscale(x * 0x100_0000_01b3) == x;
  }

  function Unmix(m: bv64, b: byte): bv64 {
    Unscale(m) ^ (b as bv64)
  }

  lemma MixIs(h: bv64, b: byte, x: bv64)
    requires x == h ^ (b as bv64)
    ensures MixByte(h, b) == Scale(x)
  {
  }

  lemma MixUnscaled(h: bv64, b: byte, m: bv64, x: bv64)
    requires m == MixByte(h, b) && x == h ^ (b as bv64)
    ensures Unscale(m) == x
  {
    MixIs(h, b, x);
    Unscaled(x);
  }

  lemma XorUndone(h: bv64, b: byte, x: bv64)
    requires x == h ^ (b as bv64)
    ensures x ^ (b as bv64) == h
  {
  }

  lemma UnmixAt(h: bv64, b: byte, m: bv64, x: bv64)
    requires Unscale(m) == x && x == h ^ (b as bv64)
    ensures Unmix(m, b) == h
  {
    XorUndone(h, b, x);
  }

  /** The state before a byte is read back from the state after it. */
  lemma MixUndone(h: bv64, b: byte, m: bv64)
    requires m == MixByte(h, b)
    ensures Unmix(m, b) == h
  {
    var x := h ^ (b as bv64);
    MixUnscaled(h, b, m, x);
    UnmixAt(h, b, m, x);
  }

  lemma StatesTold(g: bv64, h: bv64, b: byte)
    requires MixByte(g, b) == MixByte(h, b)
    ensures g == h
  {
    var m := MixByte(g, b);
    MixUndone(g, b, m);
    MixUndone(h, b, m);
  }

  lemma XorTells(h: bv64, a: byte, b: byte)
    requires h ^ (a as bv64) == h ^ (b as bv64)
    ensures a == b
  {
  }

  lemma BytesTold(h: bv64, a: byte, b: byte)
    requires MixByte(h, a) == MixByte(h, b)
    ensures a == b
  {
    var m := MixByte(h, a);
    MixUnscaled(h, a, m, h ^ (a as bv64));
    MixUnscaled(h, b, m, h ^ (b as bv64));
    XorTells(h, a, b);
  }

  // ── So feeding bytes tells streams one byte apart ─────────────────────

  /** One step tells states apart by one byte, and bytes apart from one state. */
  ghost predicate Telling<S(!new)>(step: (S, byte) -> S) {
    && (forall g, h, b :: step(g, b) == step(h, b) ==> g == h)
    && (forall h, a, b :: step(h, a) == step(h, b) ==> a == b)
  }

  lemma MixByteTells()
    ensures Telling(MixByte)
  {
    forall g, h, b | MixByte(g, b) == MixByte(h, b) ensures g == h {
      StatesTold(g, h, b);
    }
    forall h, a, b | MixByte(h, a) == MixByte(h, b) ensures a == b {
      BytesTold(h, a, b);
    }
  }

  lemma {:induction false} FeedTellsStates<S(!new)>(step: (S, byte) -> S, g: S, h: S, bytes: Text)
    requires Telling(step)
    ensures Feed(step, g, bytes) == Feed(step, h, bytes) <==> g == h
  {
    if bytes == [] {
    } else {
      var init, last := bytes[..|bytes| - 1], bytes[|bytes| - 1];
      FeedTellsStates(step, g, h, init);
      assert step(Feed(step, g, init), last) == step(Feed(step, h, init), last) ==> g == h;
    }
  }

  lemma FeedTellsByte<S(!new)>(step: (S, byte) -> S, h: S, a: Text, x: byte, y: byte, b: Text)
    requires Telling(step)
    ensures Feed(step, h, a + [x] + b) == Feed(step, h, a + [y] + b) <==> x == y
  {
    var s := Feed(step, h, a);
    FeedConcat(step, h, a + [x], b);
    FeedConcat(step, h, a + [y], b);
    assert (a + [x])[..|a|] == a && (a + [y])[..|a|] == a;
    FeedTellsStates(step, step(s, x), step(s, y), b);
  }

  /** The same bytes fed to different states leave different states. */
  lemma FnvInjective(g: bv64, h: bv64, bytes: Text)
    ensures Fnv(g, bytes) == Fnv(h, bytes) <==> g == h
  {
    MixByteTells();
    FeedTellsStates(MixByte, g, h, bytes);
  }

  /** The streams are of one length and differ in a single byte. */
  ghost predicate OneByteApart(a: Text, b: Text) {
    exists front, x, y, back :: a == front + [x] + back && b == front + [y] + back && x != y
  }

  /** Mails whose streams are one byte apart are never taken for one another, hash and all. */
  lemma OneByteApartDiffer(m: Mail, n: Mail)
    requires OneByteApart(Stream(m), Stream(n))
    ensures KeyOf(m) != KeyOf(n)
  {
    var front, x, y, back :|
      Stream(m) == front + [x] + back && Stream(n) == front + [y] + back && x != y;
    MixByteTells();
    FeedTellsByte(MixByte, FNV_OFFSET, front, x, y, back);
  }

  /** The published value of 64-bit FNV-1a for the one-byte text "a". */
  lemma FnvOfA()
    ensures Fnv(FNV_OFFSET, [0x61]) == 0xaf63_dc4c_8601_ec8c
  {
    assert Feed(MixByte, FNV_OFFSET, [0x61]) == MixByte(Feed(MixByte, FNV_OFFSET, [0x61][..0]), 0x61);
  }
}
