/**
 * String helpers with the meaning the Rust standard library gives them:
 * `char::is_whitespace`, `str::trim`, `str::lines`, `str::contains`,
 * `str::starts_with` and `[String]::join`.
 */
module Text {

  /** Rust's `char::is_whitespace`: the Unicode White_Space property. */
  predicate IsWhitespace(c: char)
  {
    ('\t' <= c <= '\r') || c == ' ' || c == '\U{85}' || c == '\U{A0}' || c == '\U{1680}'
    || ('\U{2000}' <= c <= '\U{200A}') || c == '\U{2028}' || c == '\U{2029}'
    || c == '\U{202F}' || c == '\U{205F}' || c == '\U{3000}'
  }

  /** Every character of `s` is whitespace (the empty string included). */
  predicate IsBlank(s: string)
  {
    forall i :: 0 <= i < |s| ==> IsWhitespace(s[i])
  }

  /** `str::trim_start`: drops the leading whitespace. */
  function TrimStart(s: string): (r: string)
    ensures |r| <= |s|
  {
    if s == [] || !IsWhitespace(s[0]) then s else TrimStart(s[1..])
  }

  /** `str::trim_end`: drops the trailing whitespace. */
  function TrimEnd(s: string): (r: string)
    ensures |r| <= |s|
  {
    if s == [] || !IsWhitespace(s[|s| - 1]) then s else TrimEnd(s[..|s| - 1])
  }

  /** `trim_start()` keeps a suffix that does not start with whitespace, and drops only whitespace. */
  lemma {:induction false} TrimStartShape(s: string)
    ensures var r := TrimStart(s);
      && r == s[|s| - |r|..]
      && (r == [] || !IsWhitespace(r[0]))
      && IsBlank(s[..|s| - |r|])
    decreases |s|
  {
    if s != [] && IsWhitespace(s[0]) {
      TrimStartShape(s[1..]);
      var r := TrimStart(s[1..]);
      assert s[1..][|s| - 1 - |r|..] == s[|s| - |r|..];
      assert s[1..][..|s| - 1 - |r|] == s[1..|s| - |r|];
    }
  }

  /** `trim_end()` keeps a prefix that does not end with whitespace. */
  lemma {:induction false} TrimEndShape(s: string)
    ensures var r := TrimEnd(s);
      && r == s[..|r|]
      && (r == [] || !IsWhitespace(r[|r| - 1]))
    decreases |s|
  {
    if s != [] && IsWhitespace(s[|s| - 1]) {
      TrimEndShape(s[..|s| - 1]);
    }
  }

  /** `str::trim`: drops leading and trailing whitespace. */
  function Trim(s: string): (r: string)
    ensures |r| <= |s|
    ensures r == [] || (!IsWhitespace(r[0]) && !IsWhitespace(r[|r| - 1]))
  {
    TrimStartShape(s);
    TrimEndShape(TrimStart(s));
    TrimEnd(TrimStart(s))
  }

  /** `trim_start()` yields the empty string exactly for blank strings. */
  lemma {:induction false} TrimStartEmptyIffBlank(s: string)
    ensures TrimStart(s) == [] <==> IsBlank(s)
    decreases |s|
  {
    if s != [] && IsWhitespace(s[0]) {
      TrimStartEmptyIffBlank(s[1..]);
      assert forall k :: 1 <= k < |s| ==> s[k] == s[1..][k - 1];
    }
  }

  /** `trim_end()` yields the empty string exactly for blank strings. */
  lemma {:induction false} TrimEndEmptyIffBlank(s: string)
    ensures TrimEnd(s) == [] <==> IsBlank(s)
    decreases |s|
  {
    if s != [] && IsWhitespace(s[|s| - 1]) {
      TrimEndEmptyIffBlank(s[..|s| - 1]);
      assert forall k :: 0 <= k < |s| - 1 ==> s[k] == s[..|s| - 1][k];
    }
  }

  /** `trim()` yields the empty string exactly for blank strings. */
  lemma TrimEmptyIffBlank(s: string)
    ensures Trim(s) == [] <==> IsBlank(s)
  {
    TrimStartEmptyIffBlank(s);
    TrimEndEmptyIffBlank(TrimStart(s));
    TrimStartShape(s);
  }

  /** A string with no surrounding whitespace is its own trim. */
  lemma TrimOfTrimmed(s: string)
    requires s == [] || (!IsWhitespace(s[0]) && !IsWhitespace(s[|s| - 1]))
    ensures Trim(s) == s
  {
  }

  /** `str::starts_with`. */
  predicate StartsWith(s: string, prefix: string)
  {
    |prefix| <= |s| && s[..|prefix|] == prefix
  }

  /** `str::ends_with`. */
  predicate EndsWith(s: string, suffix: string)
  {
    |suffix| <= |s| && s[|s| - |suffix|..] == suffix
  }

  /** `str::contains` for a string pattern. */
  predicate Contains(s: string, sub: string)
    decreases |s|
  {
    StartsWith(s, sub) || (s != [] && Contains(s[1..], sub))
  }

  /** Whatever is written around `sub` still contains it. */
  lemma {:induction false} ContainsInfix(a: string, sub: string, b: string)
    ensures Contains(a + sub + b, sub)
    decreases |a|
  {
    if a == [] {
      assert (a + sub + b)[..|sub|] == sub;
    } else {
      assert (a + sub + b)[1..] == a[1..] + sub + b;
      ContainsInfix(a[1..], sub, b);
    }
  }

  /** Text that contains `sub` still does with more written after it. */
  lemma {:induction false} ContainsAppend(a: string, b: string, sub: string)
    requires Contains(a, sub)
    ensures Contains(a + b, sub)
    decreases |a|
  {
    if StartsWith(a, sub) {
      assert (a + b)[..|sub|] == a[..|sub|];
    } else {
      assert (a + b)[1..] == a[1..] + b;
      ContainsAppend(a[1..], b, sub);
    }
  }

  /** Text that contains `sub` still does with more written before it. */
  lemma {:induction false} ContainsPrepend(a: string, b: string, sub: string)
    requires Contains(b, sub)
    ensures Contains(a + b, sub)
    decreases |a|
  {
    if a != [] {
      assert (a + b)[1..] == a[1..] + b;
      ContainsPrepend(a[1..], b, sub);
    } else {
      assert a + b == b;
    }
  }

  /** A string that starts with `a + sub` contains `sub`. */
  lemma ContainsAfterPrefix(s: string, a: string, sub: string)
    requires StartsWith(s, a + sub)
    ensures Contains(s, sub)
  {
    assert s == a + sub + s[|a + sub|..] by {
      assert s == s[..|a + sub|] + s[|a + sub|..];
    }
    ContainsInfix(a, sub, s[|a + sub|..]);
  }

  /** `[String]::join(sep)`. */
  function Join(parts: seq<string>, sep: string): string
  {
    if |parts| == 0 then ""
    else if |parts| == 1 then parts[0]
    else parts[0] + sep + Join(parts[1..], sep)
  }

  /** Each part of a join appears in it. */
  lemma {:induction false} JoinContains(parts: seq<string>, sep: string, i: nat)
    requires i < |parts|
    ensures Contains(Join(parts, sep), parts[i])
    decreases |parts|
  {
    if |parts| == 1 {
      ContainsInfix([], parts[0], []);
      assert [] + parts[0] + [] == parts[0];
    } else if i == 0 {
      ContainsInfix([], parts[0], sep + Join(parts[1..], sep));
      assert [] + parts[0] + (sep + Join(parts[1..], sep)) == Join(parts, sep);
    } else {
      JoinContains(parts[1..], sep, i - 1);
      ContainsPrepend(parts[0] + sep, Join(parts[1..], sep), parts[i]);
      assert parts[0] + sep + Join(parts[1..], sep) == Join(parts, sep);
    }
  }

  /** ASCII lower-casing of one character. */
  function LowerChar(c: char): char
  {
    if 'A' <= c <= 'Z' then (c as int - 'A' as int + 'a' as int) as char else c
  }

  /** Lower-casing of a string, character by character. */
  function ToLower(s: string): (r: string)
    ensures |r| == |s|
    ensures forall i :: 0 <= i < |s| ==> r[i] == LowerChar(s[i])
  {
    if s == [] then [] else [LowerChar(s[0])] + ToLower(s[1..])
  }

  /** Lower-casing twice is lower-casing once. */
  lemma ToLowerIdempotent(s: string)
    ensures ToLower(ToLower(s)) == ToLower(s)
  {
    assert forall i :: 0 <= i < |s| ==> LowerChar(LowerChar(s[i])) == LowerChar(s[i]);
  }

  /** Lower-casing works character by character, so it distributes over concatenation. */
  lemma ToLowerAppend(a: string, b: string)
    ensures ToLower(a + b) == ToLower(a) + ToLower(b)
  {
    assert forall i :: 0 <= i < |a| + |b| ==> (a + b)[i] == if i < |a| then a[i] else b[i - |a|];
  }

  /** The first index at or after `from` holding '\n', or |s| when there is none. */
  function NewlineIndex(s: string, from: nat): (i: nat)
    requires from <= |s|
    ensures from <= i <= |s|
    ensures i < |s| ==> s[i] == '\n'
    ensures forall k :: from <= k < i ==> s[k] != '\n'
    decreases |s| - from
  {
    if from == |s| || s[from] == '\n' then from else NewlineIndex(s, from + 1)
  }

  /**
   * `str::lines`: the pieces between '\n' characters, without the empty
   * piece after a final '\n'.  A '\r' before the '\n' stays in the piece;
   * every caller in this model trims the pieces, which removes it.
   */
  function Lines(s: string): seq<string>
    decreases |s|
  {
    if s == [] then []
    else
      var i := NewlineIndex(s, 0);
      if i == |s| then [s] else [s[..i]] + Lines(s[i + 1..])
  }

  /** The first newline of `s` is also the first newline of `s + t`. */
  lemma NewlineIndexExtend(s: string, t: string)
    requires NewlineIndex(s, 0) < |s|
    ensures NewlineIndex(s + t, 0) == NewlineIndex(s, 0)
  {
    var i := NewlineIndex(s, 0);
    var j := NewlineIndex(s + t, 0);
    assert (s + t)[i] == '\n';
    assert forall k :: 0 <= k < i ==> (s + t)[k] == s[k];
  }

  /** One '\n'-free line followed by '\n' is that single line. */
  lemma SingleLine(t: string)
    requires NoNewline(t)
    ensures Lines(t + "\n") == [t]
  {
    var s := t + "\n";
    assert s[|t|] == '\n';
    assert forall k :: 0 <= k < |t| ==> s[k] == t[k];
    assert NewlineIndex(s, 0) == |t|;
    assert s[..|t|] == t;
    assert s[|t| + 1..] == [];
  }

  /** Text after a complete first line does not change that first line. */
  lemma LinesStep(p: string, q: string)
    requires NewlineIndex(p, 0) < |p|
    ensures Lines(p + q) == [p[..NewlineIndex(p, 0)]] + Lines(p[NewlineIndex(p, 0) + 1..] + q)
  {
    var i := NewlineIndex(p, 0);
    NewlineIndexExtend(p, q);
    assert (p + q)[..i] == p[..i];
    assert (p + q)[i + 1..] == p[i + 1..] + q;
  }

  /** Text ending with '\n' has its first newline strictly inside it. */
  lemma NewlineBeforeEnd(p: string)
    requires p != [] && p[|p| - 1] == '\n'
    ensures NewlineIndex(p, 0) < |p|
  {
  }

  /** A string free of '\n' characters. */
  predicate NoNewline(t: string)
  {
    forall k :: 0 <= k < |t| ==> t[k] != '\n'
  }

  /** Splitting off the first complete line of `p` before and after appending `t` and '\n'. */
  lemma AppendLineStep(p: string, t: string)
    requires p != [] && p[|p| - 1] == '\n'
    ensures NewlineIndex(p, 0) < |p|
    ensures var rest := p[NewlineIndex(p, 0) + 1..];
      && (rest == [] || rest[|rest| - 1] == '\n')
      && Lines(p + t + "\n") == [p[..NewlineIndex(p, 0)]] + Lines(rest + t + "\n")
      && Lines(p) == [p[..NewlineIndex(p, 0)]] + Lines(rest)
  {
    NewlineBeforeEnd(p);
    var i := NewlineIndex(p, 0);
    var rest := p[i + 1..];
    assert p + t + "\n" == p + (t + "\n");
    LinesStep(p, t + "\n");
    assert rest + (t + "\n") == rest + t + "\n";
    LinesStep(p, []);
    assert p + [] == p;
    assert rest + [] == rest;
    assert rest != [] ==> rest[|rest| - 1] == p[|p| - 1];
  }

  /**
   * Appending one '\n'-free line and a '\n' to text that is empty or ends
   * with '\n' adds exactly that line to `lines()`.
   */
  lemma {:induction false} LinesAppendLine(p: string, t: string)
    requires p == [] || p[|p| - 1] == '\n'
    requires NoNewline(t)
    ensures Lines(p + t + "\n") == Lines(p) + [t]
    decreases |p|
  {
    if p == [] {
      assert p + t + "\n" == t + "\n";
      SingleLine(t);
    } else {
      AppendLineStep(p, t);
      var rest := p[NewlineIndex(p, 0) + 1..];
      LinesAppendLine(rest, t);
      ConsThenAppend(p[..NewlineIndex(p, 0)], Lines(rest), t);
    }
  }

  lemma ConsThenAppend(h: string, a: seq<string>, t: string)
    ensures [h] + (a + [t]) == ([h] + a) + [t]
  {
  }
}
