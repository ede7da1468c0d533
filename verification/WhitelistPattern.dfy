/**
 Whitelist patterns: a value is escaped, its stars rewritten, anchored and compiled as a regular
 expression; the expression means case-insensitive glob matching.  Compiled patterns are cached.
 */
module WhitelistPattern {
  import opened Basics
  import opened Options

  const MAX_PATTERN_LEN := 128
  const CACHE_TTL := 30

  // ── The reference: globs ──────────────────────────────────────────────

  /** Simple case folding of a character. */
  type CaseFold = char -> char

  predicate OneLine(s: string) {
    '\n' !in s
  }

  /** Every star stands for any string without newline; other characters match up to case. */
  ghost predicate Glob(fold: CaseFold, value: string, target: string)
    decreases |value|
  {
    if value == "" then target == ""
    else if value[0] == '*' then
      exists k :: 0 <= k <= |target| && OneLine(target[..k]) && Glob(fold, value[1..], target[k..])
    else target != "" && fold(value[0]) == fold(target[0]) && Glob(fold, value[1..], target[1..])
  }

  // ── Building the expression ───────────────────────────────────────────

  /** The characters `regex::escape` puts a backslash before. */
  predicate Meta(c: char) {
    || c == '\\' || c == '.' || c == '+' || c == '*' || c == '?' || c == '(' || c == ')' || c == '|' || c == '['
    || c == ']' || c == '{' || c == '}' || c == '^' || c == '$' || c == '#' || c == '&' || c == '-' || c == '~'
  }

  function Escape(value: string): string {
    if value == "" then ""
    else (if Meta(value[0]) then ['\\', value[0]] else [value[0]]) + Escape(value[1..])
  }

  /** Replaces each escaped star, left to right. */
  function ReplaceStars(s: string): string {
    if |s| < 2 then s
    else if s[0] == '\\' && s[1] == '*' then ".*" + ReplaceStars(s[2..])
    else [s[0]] + ReplaceStars(s[1..])
  }

  function Utf8Len(s: string): nat {
    if s == "" then 0 else
      var c := s[0] as int;
      (if c < 0x80 then 1 else if c < 0x800 then 2 else if c < 0x1_0000 then 3 else 4) + Utf8Len(s[1..])
  }

  function Anchored(value: string): string {
    "^" + ReplaceStars(Escape(value)) + "$"
  }

  // ── Regular expressions, as far as compiled patterns use them ─────────

  datatype Node = Literal(c: char) | AnyStar | LineStart | LineEnd

  datatype Regex = Regex(ignoreCase: bool, nodes: seq<Node>)

  function Parse(s: string): Option<Regex> {
    if "(?i)" <= s then
      match ParseNodes(s[4..])
      case None => None
      case Some(nodes) => Some(Regex(true, nodes))
    else
      match ParseNodes(s)
      case None => None
      case Some(nodes) => Some(Regex(false, nodes))
  }

  function Cons(n: Node, rest: Option<seq<Node>>): Option<seq<Node>> {
    if rest.None? then None else Some([n] + rest.value)
  }

  function ParseNodes(s: string): Option<seq<Node>>
    decreases |s|
  {
    if s == "" then Some([])
    else if s[0] == '\\' then
      if |s| >= 2 && Meta(s[1]) then Cons(Literal(s[1]), ParseNodes(s[2..])) else None
    else if s[0] == '.' then
      if |s| >= 2 && s[1] == '*' then Cons(AnyStar, ParseNodes(s[2..])) else None
    else if s[0] == '^' then Cons(LineStart, ParseNodes(s[1..]))
    else if s[0] == '$' then Cons(LineEnd, ParseNodes(s[1..]))
    else if Meta(s[0]) then None
    else Cons(Literal(s[0]), ParseNodes(s[1..]))
  }

  /** Does a match of the nodes begin at `i`? */
  predicate MatchAt(fold: CaseFold, re: Regex, n: nat, target: string, i: nat)
    requires n <= |re.nodes| && i <= |target|
    decreases |re.nodes| - n, |target| - i
  {
    if n == |re.nodes| then true
    else match re.nodes[n]
      case LineStart => i == 0 && MatchAt(fold, re, n + 1, target, i)
      case LineEnd => i == |target| && MatchAt(fold, re, n + 1, target, i)
      case AnyStar =>
        || MatchAt(fold, re, n + 1, target, i)
        || (i < |target| && target[i] != '\n' && MatchAt(fold, re, n, target, i + 1))
      case Literal(c) =>
        && i < |target|
        && (if re.ignoreCase then fold(c) == fold(target[i]) else c == target[i])
        && MatchAt(fold, re, n + 1, target, i + 1)
  }

  /** A search: a match may begin anywhere. */
  predicate IsMatch(fold: CaseFold, re: Regex, target: string) {
    exists i :: 0 <= i <= |target| && MatchAt(fold, re, 0, target, i)
  }

  // ── Compilation preserves meaning ─────────────────────────────────────

  /** Character by character: what the value's expression text should be. */
  function Translate(value: string): string {
    if value == "" then "" else Piece(value[0]) + Translate(value[1..])
  }

  function Piece(c: char): string {
    if c == '*' then ".*" else if Meta(c) then ['\\', c] else [c]
  }

  function Nodes(value: string): seq<Node> {
    if value == "" then []
    else [NodeOf(value[0])] + Nodes(value[1..])
  }

  function NodeOf(c: char): Node {
    if c == '*' then AnyStar else Literal(c)
  }

  lemma ReplacePiece(c: char, rest: string)
    requires rest != "" ==> rest[0] != '*'
    ensures ReplaceStars((if Meta(c) then ['\\', c] else [c]) + rest) == Piece(c) + ReplaceStars(rest)
  {
  }

  /** The replacement finds exactly the stars of the value, even next to backslashes. */
  lemma {:induction false} ReplaceTranslates(value: string)
    ensures ReplaceStars(Escape(value)) == Translate(value)
    ensures Escape(value) != "" ==> Escape(value)[0] != '*'
  {
    if value == "" {
    } else {
      ReplaceTranslates(value[1..]);
      ReplacePiece(value[0], Escape(value[1..]));
    }
  }

  lemma ParsePiece(c: char, rest: string)
    ensures ParseNodes(Piece(c) + rest) == Cons(NodeOf(c), ParseNodes(rest))
  {
  }

  lemma {:induction false} TranslationParses(value: string)
    ensures ParseNodes(Translate(value) + "$") == Some(Nodes(value) + [LineEnd])
  {
    if value == "" {
      var d := "$";
      assert Translate(value) + d == d && d[1..] == "";
      assert ParseNodes(d) == Cons(LineEnd, Some([]));
      assert [LineEnd] + [] == Nodes(value) + [LineEnd];
    } else {
      var rest := Translate(value[1..]) + "$";
      TranslationParses(value[1..]);
      assert Translate(value) + "$" == Piece(value[0]) + rest;
      ParsePiece(value[0], rest);
      assert [NodeOf(value[0])] + (Nodes(value[1..]) + [LineEnd]) == Nodes(value) + [LineEnd];
    }
  }

  function Compile(value: string): Option<Regex> {
    if Utf8Len(value) > MAX_PATTERN_LEN then None else Parse("(?i)" + Anchored(value))
  }

  /** Compilation fails only on values that are too long. */
  lemma CompilesTo(value: string)
    ensures Compile(value) == if Utf8Len(value) > 128 then None
      else Some(Regex(true, [LineStart] + Nodes(value) + [LineEnd]))
  {
    ReplaceTranslates(value);
    TranslationParses(value);
    var a := Anchored(value);
    assert a[1..] == Translate(value) + "$";
    assert ("(?i)" + a)[4..] == a;
    assert [LineStart] + (Nodes(value) + [LineEnd]) == [LineStart] + Nodes(value) + [LineEnd];
  }

  function Full(value: string): Regex {
    Regex(true, [LineStart] + Nodes(value) + [LineEnd])
  }

  lemma {:induction false} NodesAt(value: string, n: nat)
    requires n < |value|
    ensures |Nodes(value)| == |value|
    ensures Nodes(value)[n] == NodeOf(value[n])
  {
    if |value| == 1 {
    } else {
      NodesAt(value[1..], if n == 0 then 0 else n - 1);
    }
  }

  lemma FullNode(value: string, n: nat)
    requires 1 <= n <= |value| + 1
    ensures |Full(value).nodes| == |value| + 2
    ensures Full(value).nodes[n] == if n == |value| + 1 then LineEnd else NodeOf(value[n - 1])
  {
    if value != "" {
      NodesAt(value, if n <= |value| then n - 1 else 0);
    }
  }

  /** Can the star that is node `n` of the expression stand for the target from `i` up to `k`? */
  predicate Spans(fold: CaseFold, re: Regex, n: nat, target: string, i: nat, k: nat)
    requires n < |re.nodes|
  {
    i <= k <= |target| && OneLine(target[i..k]) && MatchAt(fold, re, n + 1, target, k)
  }

  lemma SpansLater(fold: CaseFold, re: Regex, n: nat, target: string, i: nat, k: nat)
    requires n < |re.nodes| && i < |target| && i < k
    ensures Spans(fold, re, n, target, i, k) <==> target[i] != '\n' && Spans(fold, re, n, target, i + 1, k)
  {
  }

  /** Skipping over a newline-free stretch one character at a time reaches every end of it. */
  lemma {:induction false} StarReaches(fold: CaseFold, re: Regex, n: nat, target: string, i: nat)
    requires n < |re.nodes| && re.nodes[n] == AnyStar && i <= |target|
    ensures MatchAt(fold, re, n, target, i) <==> exists k: nat :: Spans(fold, re, n, target, i, k)
    decreases |target| - i
  {
    assert Spans(fold, re, n, target, i, i) <==> MatchAt(fold, re, n + 1, target, i);
    if i < |target| {
      StarReaches(fold, re, n, target, i + 1);
      if target[i] != '\n' && MatchAt(fold, re, n, target, i + 1) {
        var k: nat :| Spans(fold, re, n, target, i + 1, k);
        SpansLater(fold, re, n, target, i, k);
      }
      if k: nat :| Spans(fold, re, n, target, i, k) {
        if k > i {
          SpansLater(fold, re, n, target, i, k);
        }
      }
    }
  }

  /** From any point of the value and the target on, the expression matches what the glob matches. */
  lemma {:induction false} MatchIsGlob(fold: CaseFold, value: string, n: nat, target: string, i: nat)
    requires 1 <= n <= |value| + 1 && i <= |target|
    ensures |Full(value).nodes| == |value| + 2
    ensures MatchAt(fold, Full(value), n, target, i) <==> Glob(fold, value[n - 1..], target[i..])
    decreases |value| - n + 1, 1
  {
    FullNode(value, n);
    if n <= |value| {
      if value[n - 1] == '*' {
        StarReaches(fold, Full(value), n, target, i);
        StarIsGlob(fold, value, n, target, i);
      } else {
        LiteralIsGlob(fold, value, n, target, i);
      }
    }
  }

  lemma MatchLiteral(fold: CaseFold, value: string, n: nat, target: string, i: nat)
    requires 1 <= n <= |value| && i <= |target| && value[n - 1] != '*'
    ensures |Full(value).nodes| == |value| + 2
    ensures MatchAt(fold, Full(value), n, target, i) <==>
      i < |target| && fold(value[n - 1]) == fold(target[i]) && MatchAt(fold, Full(value), n + 1, target, i + 1)
  {
    FullNode(value, n);
  }

  lemma GlobLiteral(fold: CaseFold, value: string, n: nat, target: string, i: nat)
    requires 1 <= n <= |value| && i <= |target| && value[n - 1] != '*'
    ensures Glob(fold, value[n - 1..], target[i..]) <==>
      i < |target| && fold(value[n - 1]) == fold(target[i]) && Glob(fold, value[n..], target[i + 1..])
  {
    assert value[n - 1..][1..] == value[n..];
    assert i < |target| ==> target[i..][1..] == target[i + 1..];
  }

  lemma {:induction false} LiteralIsGlob(fold: CaseFold, value: string, n: nat, target: string, i: nat)
    requires 1 <= n <= |value| && i <= |target| && value[n - 1] != '*'
    ensures |Full(value).nodes| == |value| + 2
    ensures MatchAt(fold, Full(value), n, target, i) <==> Glob(fold, value[n - 1..], target[i..])
    decreases |value| - n + 1, 0
  {
    MatchLiteral(fold, value, n, target, i);
    GlobLiteral(fold, value, n, target, i);
    if i < |target| {
      MatchIsGlob(fold, value, n + 1, target, i + 1);
    }
  }

  lemma {:induction false} StarIsGlob(fold: CaseFold, value: string, n: nat, target: string, i: nat)
    requires 1 <= n <= |value| && i <= |target| && value[n - 1] == '*'
    ensures |Full(value).nodes| == |value| + 2
    ensures (exists k: nat :: Spans(fold, Full(value), n, target, i, k)) <==> Glob(fold, value[n - 1..], target[i..])
    decreases |value| - n + 1, 0
  {
    FullNode(value, n);
    var re, v, rest := Full(value), value[n - 1..], target[i..];
    assert v[1..] == value[n..];
    forall k: nat | k <= |rest|
      ensures Spans(fold, re, n, target, i, i + k) <==> OneLine(rest[..k]) && Glob(fold, v[1..], rest[k..])
    {
      assert rest[k..] == target[i + k..] && rest[..k] == target[i..i + k];
      MatchIsGlob(fold, value, n + 1, target, i + k);
    }
    if k: nat :| Spans(fold, re, n, target, i, k) {
      var d := k - i;
      assert Spans(fold, re, n, target, i, i + d);
      assert OneLine(rest[..d]) && Glob(fold, v[1..], rest[d..]);
    }
  }

  /** A compiled pattern finds a match in a target exactly when the target matches the glob. */
  lemma CompileMeansGlob(fold: CaseFold, value: string, target: string)
    requires Utf8Len(value) <= MAX_PATTERN_LEN
    ensures Compile(value).Some?
    ensures IsMatch(fold, Compile(value).value, target) <==> Glob(fold, value, target)
  {
    CompilesTo(value);
    var re := Full(value);
    FullNode(value, 1);
    MatchIsGlob(fold, value, 1, target, 0);
    assert value[0..] == value && target[0..] == target;
    assert re.nodes[0] == LineStart;
    assert MatchAt(fold, re, 0, target, 0) <==> MatchAt(fold, re, 1, target, 0);
  }

  // ── The cache ─────────────────────────────────────────────────────────

  /** What a lookup of a list of values should answer, with no cache in sight. */
  ghost predicate Allowed(fold: CaseFold, values: seq<string>, target: string) {
    exists v :: v in values && Allows(fold, v, target)
  }

  ghost predicate Allows(fold: CaseFold, value: string, target: string) {
    Utf8Len(value) <= MAX_PATTERN_LEN && Glob(fold, value, target)
  }

  datatype Cached = Cached(regex: Regex, created: nat)

  class Cache {
    var entries: map<string, Cached>

    /** Whatever is cached is what compiling would give. */
    ghost predicate Valid()
      reads this
    {
      forall v :: v in entries ==> Compile(v) == Some(entries[v].regex)
    }

    constructor ()
      ensures Valid()
    {
      entries := map[];
    }

    method GetOrCompile(value: string, now: nat) returns (re: Option<Regex>)
      requires Valid()
      modifies this
      ensures Valid() && re == Compile(value)
      ensures re.Some? ==> value in entries && Age(entries[value].created, now) < 30
      ensures forall v :: v in entries && v != value ==> v in old(entries) && entries[v] == old(entries[v])
      ensures forall v :: v in old(entries) && v !in entries ==> Age(old(entries[v].created), now) >= 30
      ensures value in old(entries) && Age(old(entries[value].created), now) < 30 ==> entries == old(entries)
    {
      if value in entries && Age(entries[value].created, now) < CACHE_TTL {
        return Some(entries[value].regex);
      }
      re := Compile(value);
      if re.Some? {
        entries := map v | v in entries && Age(entries[v].created, now) < CACHE_TTL :: entries[v];
        entries := entries[value := Cached(re.value, now)];
      }
    }

    method Invalidate(value: string)
      requires Valid()
      modifies this
      ensures Valid() && entries == old(entries) - {value}
    {
      entries := entries - {value};
    }

    /** The answer is the same for every content of the cache and every reading of the clock. */
    method IsWhitelisted(fold: CaseFold, values: seq<string>, target: string, clock: nat -> nat) returns (ok: bool)
      requires Valid()
      modifies this
      ensures Valid() && ok == Allowed(fold, values, target)
      ensures ok <==> exists i :: 0 <= i < |values| && Utf8Len(values[i]) <= 128 && Glob(fold, values[i], target)
    {
      for i := 0 to |values|
        invariant Valid()
        invariant forall j :: 0 <= j < i ==> !Allows(fold, values[j], target)
      {
        var re := GetOrCompile(values[i], clock(i));
        CompilesTo(values[i]);
        if re.Some? {
          CompileMeansGlob(fold, values[i], target);
          if IsMatch(fold, re.value, target) {
            assert Allows(fold, values[i], target);
            return true;
          }
        }
      }
      return false;
    }
  }
}
