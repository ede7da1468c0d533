/**
 What a glob is, without its recursion: plain text matches letter by letter, and a star joins what stands
 before and after it.  What counts as too long, and what is escaped.
 */
module WhitelistGlobs {
  import opened Options
  import opened WhitelistPattern

  // ── Globs ─────────────────────────────────────────────────────────────

  /** A value without star matches the targets of its length that are the same up to case. */
  lemma {:induction false} PlainIff(fold: CaseFold, value: string, target: string)
    requires '*' !in value
    ensures Glob(fold, value, target) <==>
      |value| == |target| && forall i :: 0 <= i < |value| ==> fold(value[i]) == fold(target[i])
  {
    if value == "" {
    } else if target != "" {
      PlainIff(fold, value[1..], target[1..]);
      forall i | 0 < i < |value| && |value| == |target|
        ensures value[i] == value[1..][i - 1] && target[i] == target[1..][i - 1]
      {
      }
      if |value| == |target| && forall i :: 0 <= i < |value| ==> fold(value[i]) == fold(target[i]) {
        assert forall i :: 0 <= i < |value[1..]| ==> fold(value[1..][i]) == fold(target[1..][i]) by {
          forall i | 0 <= i < |value[1..]| ensures fold(value[1..][i]) == fold(target[1..][i]) {
            assert value[1..][i] == value[i + 1] && target[1..][i] == target[i + 1];
          }
        }
      }
    }
  }

  /** The target can be cut in two, the first part for `a` and the second for `b`. */
  ghost predicate Cuts(fold: CaseFold, a: string, b: string, target: string, i: nat) {
    i <= |target| && Glob(fold, a, target[..i]) && Glob(fold, b, target[i..])
  }

  lemma CutsCharacter(fold: CaseFold, a: string, b: string, target: string, i: nat)
    requires a != "" && a[0] != '*' && target != "" && 0 < i <= |target|
    ensures Cuts(fold, a, b, target, i) <==> fold(a[0]) == fold(target[0]) && Cuts(fold, a[1..], b, target[1..], i - 1)
  {
    assert target[..i][1..] == target[1..][..i - 1] && target[i..] == target[1..][i - 1..];
  }

  lemma CutsStar(fold: CaseFold, a: string, b: string, target: string, k: nat, i: nat)
    requires a != "" && a[0] == '*' && k <= i <= |target| && OneLine(target[..k])
    requires Cuts(fold, a[1..], b, target[k..], i - k)
    ensures Cuts(fold, a, b, target, i)
  {
    var head := target[..i];
    assert head[..k] == target[..k] && head[k..] == target[k..][..i - k] && target[k..][i - k..] == target[i..];
  }

  /** Values side by side match what can be cut in two for them. */
  lemma {:induction false} ConcatIff(fold: CaseFold, a: string, b: string, target: string)
    ensures Glob(fold, a + b, target) <==> exists i: nat :: Cuts(fold, a, b, target, i)
    decreases |a|
  {
    if a == "" {
      assert a + b == b;
      assert target[..0] == "" && target[0..] == target;
      assert Cuts(fold, a, b, target, 0) <==> Glob(fold, b, target);
      assert forall i: nat :: Cuts(fold, a, b, target, i) ==> i == 0;
    } else {
      assert (a + b)[1..] == a[1..] + b && (a + b)[0] == a[0];
      if a[0] == '*' {
        StarConcat(fold, a, b, target);
      } else {
        CharacterConcat(fold, a, b, target);
      }
    }
  }

  lemma {:induction false} StarConcat(fold: CaseFold, a: string, b: string, target: string)
    requires a != "" && a[0] == '*' && (a + b)[1..] == a[1..] + b
    ensures Glob(fold, a + b, target) <==> exists i: nat :: Cuts(fold, a, b, target, i)
    decreases |a|, 0
  {
    if Glob(fold, a + b, target) {
      var k :| 0 <= k <= |target| && OneLine(target[..k]) && Glob(fold, (a + b)[1..], target[k..]);
      ConcatIff(fold, a[1..], b, target[k..]);
      var j: nat :| Cuts(fold, a[1..], b, target[k..], j);
      CutsStar(fold, a, b, target, k, k + j);
    }
    if i: nat :| Cuts(fold, a, b, target, i) {
      var head := target[..i];
      var k :| 0 <= k <= |head| && OneLine(head[..k]) && Glob(fold, a[1..], head[k..]);
      assert head[..k] == target[..k] && head[k..] == target[k..][..i - k] && target[i..] == target[k..][i - k..];
      assert Cuts(fold, a[1..], b, target[k..], i - k);
      ConcatIff(fold, a[1..], b, target[k..]);
    }
  }

  lemma {:induction false} CharacterConcat(fold: CaseFold, a: string, b: string, target: string)
    requires a != "" && a[0] != '*' && (a + b)[1..] == a[1..] + b
    ensures Glob(fold, a + b, target) <==> exists i: nat :: Cuts(fold, a, b, target, i)
    decreases |a|, 0
  {
    if target == "" {
      assert forall i: nat :: !Cuts(fold, a, b, target, i);
    } else {
      ConcatIff(fold, a[1..], b, target[1..]);
      if j: nat :| fold(a[0]) == fold(target[0]) && Cuts(fold, a[1..], b, target[1..], j) {
        CutsCharacter(fold, a, b, target, j + 1);
      }
      if i: nat :| Cuts(fold, a, b, target, i) {
        assert i > 0;
        CutsCharacter(fold, a, b, target, i);
      }
    }
  }

  /** Before the star, any text without newline, and after it. */
  ghost predicate Joins(fold: CaseFold, a: string, b: string, target: string, i: nat, j: nat) {
    i <= j <= |target| && Glob(fold, a, target[..i]) && OneLine(target[i..j]) && Glob(fold, b, target[j..])
  }

  /** A star in a value stands for any text without newline between what matches before and after it. */
  lemma StarIff(fold: CaseFold, a: string, b: string, target: string)
    ensures Glob(fold, a + "*" + b, target) <==> exists i: nat, j: nat :: Joins(fold, a, b, target, i, j)
  {
    var star := "*" + b;
    assert a + "*" + b == a + star && star[1..] == b;
    ConcatIff(fold, a, star, target);
    if i: nat :| Cuts(fold, a, star, target, i) {
      var tail := target[i..];
      var k :| 0 <= k <= |tail| && OneLine(tail[..k]) && Glob(fold, star[1..], tail[k..]);
      assert tail[..k] == target[i..i + k] && tail[k..] == target[i + k..];
      assert Joins(fold, a, b, target, i, i + k);
    }
    if i: nat, j: nat :| Joins(fold, a, b, target, i, j) {
      var tail := target[i..];
      assert tail[..j - i] == target[i..j] && tail[j - i..] == target[j..];
      assert Cuts(fold, a, star, target, i);
    }
  }

  // ── Length ────────────────────────────────────────────────────────────

  /** How many characters have a code point of at least the bound. */
  function From(s: string, bound: int): nat {
    if s == "" then 0 else From(s[1..], bound) + if s[0] as int >= bound then 1 else 0
  }

  lemma {:induction false} LengthIs(s: string)
    ensures Utf8Len(s) == |s| + From(s, 0x80) + From(s, 0x800) + From(s, 0x1_0000)
  {
    if s == "" {
    } else {
      LengthIs(s[1..]);
    }
  }

  /** The bound of 128 is in bytes: a value of fewer characters is too long once enough of them are wide. */
  lemma TooLongIff(value: string)
    ensures Compile(value) == None <==>
      |value| + From(value, 0x80) + From(value, 0x800) + From(value, 0x1_0000) > 128
  {
    LengthIs(value);
    CompilesTo(value);
  }

  lemma {:induction false} AsciiFrom(s: string, bound: int)
    requires bound >= 0x80 && forall i :: 0 <= i < |s| ==> s[i] as int < 0x80
    ensures From(s, bound) == 0
  {
    if s == "" {
    } else {
      AsciiFrom(s[1..], bound);
    }
  }

  /** For ASCII values it is a bound on the characters. */
  lemma AsciiTooLongIff(value: string)
    requires forall i :: 0 <= i < |value| ==> value[i] as int < 0x80
    ensures Compile(value) == None <==> |value| > 128
  {
    TooLongIff(value);
    AsciiFrom(value, 0x80);
    AsciiFrom(value, 0x800);
    AsciiFrom(value, 0x1_0000);
  }

  /** One character, escaped: a backslash before the characters that mean something in a regular expression. */
  lemma EscapeIs(c: char)
    ensures Escape([c]) == if c in "\\.+*?()|[]{}^$#&-~" then ['\\', c] else [c]
  {
    assert Escape([c]) == (if Meta(c) then ['\\', c] else [c]) + Escape("");
  }
}
