/**
  The string operations the repository uses: byte-wise (here: code point) order,
  trimming, ASCII case folding and substring search.
 */
module Strings {

  // ------------------------------------------------------------------- order

  /** Lexicographic order, the order of a primary-key index over strings. */
  predicate Less(a: string, b: string) {
    if b == "" then false
    else if a == "" then true
    else a[0] < b[0] || (a[0] == b[0] && Less(a[1..], b[1..]))
  }

  lemma {:induction false} LessTransitive(a: string, b: string, c: string)
    requires Less(a, b) && Less(b, c)
    ensures Less(a, c)
  {
    if a != "" && a[0] == b[0] && b[0] == c[0] {
      LessTransitive(a[1..], b[1..], c[1..]);
    }
  }

  lemma {:induction false} LessIrreflexive(a: string)
    ensures !Less(a, a)
  {
    if a != "" {
      LessIrreflexive(a[1..]);
    }
  }

  lemma {:induction false} LessTotal(a: string, b: string)
    ensures Less(a, b) || a == b || Less(b, a)
  {
    if a != "" && b != "" && a[0] == b[0] {
      LessTotal(a[1..], b[1..]);
      assert a == [a[0]] + a[1..] && b == [b[0]] + b[1..];
    }
  }

  /** The two strings agree up to position i, where a has the smaller character. */
  predicate FallsBelowAt(a: string, b: string, i: nat) {
    i < |a| && i < |b| && a[..i] == b[..i] && a[i] < b[i]
  }

  /** A common first character moves the difference by one. */
  lemma FallsFurther(a: string, b: string, i: nat)
    requires a != "" && b != "" && a[0] == b[0]
    ensures FallsBelowAt(a, b, i + 1) <==> FallsBelowAt(a[1..], b[1..], i)
    ensures !FallsBelowAt(a, b, 0)
  {
    if i + 1 < |a| && i + 1 < |b| {
      assert a[..i + 1] == [a[0]] + a[1..][..i] && b[..i + 1] == [b[0]] + b[1..][..i];
      assert a[..i + 1][1..] == a[1..][..i] && b[..i + 1][1..] == b[1..][..i];
    }
  }

  predicate Begins(a: string, b: string) {
    |a| < |b| && b[..|a|] == a
  }

  /** In dictionary order: a string comes before its extensions, otherwise the first difference decides. */
  ghost predicate Below(a: string, b: string) {
    Begins(a, b) || exists i: nat :: FallsBelowAt(a, b, i)
  }

  lemma BeginsFurther(a: string, b: string)
    requires a != "" && b != "" && a[0] == b[0]
    ensures Begins(a, b) <==> Begins(a[1..], b[1..])
  {
    if |a| < |b| {
      assert b[..|a|] == [b[0]] + b[1..][..|a| - 1] && a == [a[0]] + a[1..];
      assert b[..|a|][1..] == b[1..][..|a| - 1];
    }
  }

  lemma DiffersAtOnce(a: string, b: string)
    requires a != "" && b != "" && a[0] != b[0]
    ensures !Begins(a, b) && forall i: nat :: FallsBelowAt(a, b, i) <==> i == 0 && a[0] < b[0]
  {
    assert |a| < |b| ==> b[..|a|][0] == b[0];
    assert forall i: nat :: 0 < i < |a| && i < |b| ==> a[..i][0] == a[0] && b[..i][0] == b[0];
  }

  /** The recursive order is dictionary order. */
  lemma {:induction false} LessExactly(a: string, b: string)
    ensures Less(a, b) <==> Below(a, b)
  {
    if a != "" && b != "" && a[0] == b[0] {
      LessExactly(a[1..], b[1..]);
      BeginsFurther(a, b);
      forall i: nat ensures FallsBelowAt(a, b, i + 1) <==> FallsBelowAt(a[1..], b[1..], i) { FallsFurther(a, b, i); }
      FallsFurther(a, b, 0);
      if i: nat :| FallsBelowAt(a, b, i) { assert FallsBelowAt(a[1..], b[1..], i - 1); }
      if i: nat :| FallsBelowAt(a[1..], b[1..], i) { assert FallsBelowAt(a, b, i + 1); }
    } else if a != "" && b != "" {
      DiffersAtOnce(a, b);
      assert FallsBelowAt(a, b, 0) <==> a[0] < b[0];
    } else if b != "" {
      assert b[..0] == "";
    }
  }

  // ---------------------------------------------------------------- trimming

  /** unicode.IsSpace */
  predicate IsSpace(c: char) {
    var n := c as int;
    9 <= n <= 13 || n in {0x20, 0x85, 0xA0, 0x1680, 0x2028, 0x2029, 0x202F, 0x205F, 0x3000} || 0x2000 <= n <= 0x200A
  }

  function TrimLeft(s: string): string {
    if s != "" && IsSpace(s[0]) then TrimLeft(s[1..]) else s
  }

  function TrimRight(s: string): string {
    if s != "" && IsSpace(s[|s| - 1]) then TrimRight(s[..|s| - 1]) else s
  }

  function TrimSpace(s: string): string {
    TrimRight(TrimLeft(s))
  }

  predicate Blank(s: string) {
    forall i :: 0 <= i < |s| ==> IsSpace(s[i])
  }

  lemma {:induction false} TrimLeftCuts(s: string) returns (a: string)
    ensures s == a + TrimLeft(s) && Blank(a)
    ensures TrimLeft(s) != "" ==> !IsSpace(TrimLeft(s)[0])
  {
    a := "";
    if s != "" && IsSpace(s[0]) {
      var b := TrimLeftCuts(s[1..]);
      a := [s[0]] + b;
    }
  }

  lemma {:induction false} TrimRightCuts(s: string) returns (b: string)
    ensures s == TrimRight(s) + b && Blank(b)
    ensures TrimRight(s) != "" ==> TrimRight(s)[0] == s[0] && !IsSpace(TrimRight(s)[|TrimRight(s)| - 1])
  {
    b := "";
    if s != "" && IsSpace(s[|s| - 1]) {
      var a := TrimRightCuts(s[..|s| - 1]);
      b := a + [s[|s| - 1]];
      assert s == s[..|s| - 1] + [s[|s| - 1]];
    }
  }

  /** What is trimmed off is white space at the two ends, and all of it there is. */
  lemma TrimExactly(s: string) returns (a: string, b: string)
    ensures s == a + TrimSpace(s) + b && Blank(a) && Blank(b)
    ensures var t := TrimSpace(s); t != "" ==> !IsSpace(t[0]) && !IsSpace(t[|t| - 1])
    ensures TrimSpace(s) == "" <==> Blank(s)
  {
    a := TrimLeftCuts(s);
    b := TrimRightCuts(TrimLeft(s));
    assert s == a + (TrimSpace(s) + b);
    if TrimSpace(s) != "" { assert s[|a|] == TrimSpace(s)[0]; }
  }

  lemma {:induction false} TrimLeftPast(a: string, t: string)
    requires Blank(a)
    ensures TrimLeft(a + t) == TrimLeft(t)
  {
    if a == "" {
      assert a + t == t;
    } else {
      assert (a + t)[1..] == a[1..] + t;
      TrimLeftPast(a[1..], t);
    }
  }

  lemma {:induction false} TrimRightPast(t: string, b: string)
    requires Blank(b)
    ensures TrimRight(t + b) == TrimRight(t)
  {
    if b == "" {
      assert t + b == t;
    } else {
      assert (t + b)[..|t + b| - 1] == t + b[..|b| - 1];
      TrimRightPast(t, b[..|b| - 1]);
    }
  }

  /** White space at the ends makes no difference. */
  lemma TrimIgnores(a: string, t: string, b: string)
    requires Blank(a) && Blank(b)
    ensures TrimSpace(a + t + b) == TrimSpace(t)
  {
    assert a + t + b == a + (t + b);
    TrimLeftPast(a, t + b);
    var c := TrimLeftCuts(t);
    if TrimLeft(t) == "" {
      assert t + b == (c + b) + "" && Blank(c + b);
      TrimLeftPast(c + b, "");
    } else {
      assert t + b == c + (TrimLeft(t) + b);
      TrimLeftPast(c, TrimLeft(t) + b);
      assert (TrimLeft(t) + b)[0] == TrimLeft(t)[0];
      TrimRightPast(TrimLeft(t), b);
    }
  }

  /** White space, character by character. */
  lemma SpacesAre(c: char)
    ensures IsSpace(c) <==>
              || c in " \t\n\r\U{0B}\U{0C}\U{85}\U{A0}\U{1680}\U{2028}\U{2029}\U{202F}\U{205F}\U{3000}"
              || '\U{2000}' <= c <= '\U{200A}'
  {}

  // -------------------------------------------------------------- case folding

  /** Lower-casing, on ASCII letters only. */
  function LowerChar(c: char): char {
    if 'A' <= c <= 'Z' then (c as int + 32) as char else c
  }

  function ToLower(s: string): (r: string)
    ensures |r| == |s|
    ensures forall i :: 0 <= i < |s| ==> r[i] == LowerChar(s[i])
  {
    seq(|s|, i requires 0 <= i < |s| => LowerChar(s[i]))
  }

  /** Capitals become the small letter at the same place of the alphabet, everything else stays. */
  lemma LowerCases(c: char)
    ensures 'A' <= c <= 'Z' ==> 'a' <= LowerChar(c) <= 'z' && LowerChar(c) as int - 'a' as int == c as int - 'A' as int
    ensures !('A' <= c <= 'Z') ==> LowerChar(c) == c
  {}

  // ------------------------------------------------------------------ searching

  predicate HasPrefix(s: string, p: string) {
    |p| <= |s| && s[..|p|] == p
  }

  predicate MatchesAt(s: string, sub: string, i: nat) {
    i + |sub| <= |s| && s[i..i + |sub|] == sub
  }

  /** strings.Index from position i on: the least match, or -1. */
  function IndexFrom(s: string, sub: string, i: nat): (r: int)
    requires i <= |s|
    ensures r == -1 || (i <= r && MatchesAt(s, sub, r))
    ensures forall j :: i <= j <= |s| && (r == -1 || j < r) ==> !MatchesAt(s, sub, j)
    decreases |s| - i
  {
    if MatchesAt(s, sub, i) then i
    else if i == |s| then -1
    else IndexFrom(s, sub, i + 1)
  }

  function Index(s: string, sub: string): int {
    IndexFrom(s, sub, 0)
  }

  predicate Contains(s: string, sub: string) {
    Index(s, sub) >= 0
  }

  /** A prefix is what something can be appended to. */
  lemma PrefixExactly(s: string, p: string)
    ensures HasPrefix(s, p) <==> exists t: string :: s == p + t
  {
    if HasPrefix(s, p) { assert s == p + s[|p|..]; }
    if exists t: string :: s == p + t {
      var t: string :| s == p + t;
      assert s[..|p|] == p;
    }
  }

  /** A string is contained where something stands before and something after it. */
  lemma ContainsExactly(s: string, sub: string)
    ensures Contains(s, sub) <==> exists a: string, b: string :: s == a + sub + b
  {
    if Contains(s, sub) {
      var i := Index(s, sub);
      assert s == s[..i] + sub + s[i + |sub|..];
    }
    if exists a: string, b: string :: s == a + sub + b {
      var a: string, b: string :| s == a + sub + b;
      assert s[|a|..|a| + |sub|] == sub;
      assert MatchesAt(s, sub, |a|);
    }
  }

  /** Index is the length of the shortest beginning after which the match stands. */
  lemma IndexExactly(s: string, sub: string)
    ensures Index(s, sub) >= 0 <==> Contains(s, sub)
    ensures forall a: string, b: string :: s == a + sub + b ==> 0 <= Index(s, sub) <= |a|
  {
    forall a: string, b: string | s == a + sub + b ensures 0 <= Index(s, sub) <= |a| {
      assert s[|a|..|a| + |sub|] == sub;
      assert MatchesAt(s, sub, |a|);
    }
  }
}
