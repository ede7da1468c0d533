/** Fields closed by a separator that they do not contain can be told apart again. */
module Framing {

  lemma SeparatorAt<T>(sep: T, a: seq<T>, x: seq<T>)
    requires sep !in a
    ensures forall i :: 0 <= i <= |a| ==> ((a + [sep] + x)[i] == sep <==> i == |a|)
  {
  }

  lemma TerminatedUnique<T>(sep: T, a: seq<T>, b: seq<T>, x: seq<T>, y: seq<T>)
    requires sep !in a && sep !in b && a + [sep] + x == b + [sep] + y
    ensures a == b && x == y
  {
    var s, t := a + [sep] + x, b + [sep] + y;
    SeparatorAt(sep, a, x);
    SeparatorAt(sep, b, y);
    var i := if |a| <= |b| then |a| else |b|;
    assert s[i] == t[i];
    assert a == s[..|a|] && b == t[..|a|];
    assert x == s[|a| + 1..] && y == t[|a| + 1..];
  }

  /** The fields of a list, each closed by the separator. */
  function Frames<T>(sep: T, xs: seq<seq<T>>): seq<T> {
    if xs == [] then [] else xs[0] + [sep] + Frames(sep, xs[1..])
  }

  lemma {:induction false} FramesConcat<T>(sep: T, xs: seq<seq<T>>, ys: seq<seq<T>>)
    ensures Frames(sep, xs + ys) == Frames(sep, xs) + Frames(sep, ys)
  {
    if xs == [] {
      assert xs + ys == ys;
    } else {
      FramesConcat(sep, xs[1..], ys);
      assert (xs + ys)[1..] == xs[1..] + ys;
    }
  }

  /** Fields without the separator, empty ones included, are read back from their closed concatenation. */
  lemma {:induction false} FieldsUnique<T>(sep: T, xs: seq<seq<T>>, ys: seq<seq<T>>)
    requires forall f :: f in xs ==> sep !in f
    requires forall f :: f in ys ==> sep !in f
    requires Frames(sep, xs) == Frames(sep, ys)
    ensures xs == ys
  {
    if xs == [] || ys == [] {
    } else {
      assert xs[0] in xs && ys[0] in ys;
      TerminatedUnique(sep, xs[0], ys[0], Frames(sep, xs[1..]), Frames(sep, ys[1..]));
      FieldsUnique(sep, xs[1..], ys[1..]);
      assert xs == [xs[0]] + xs[1..] && ys == [ys[0]] + ys[1..];
    }
  }
}
