/** The JavaScript string operations the dashboard's components rely on
    (`includes`, `startsWith`, `split(":")[0]`, `toLowerCase`, `trim`),
    stated over `string` = `seq<char>`. */
module Text {

  /** `s.startsWith(p)` */
  predicate StartsWith(s: string, p: string) {
    |p| <= |s| && s[..|p|] == p
  }

  /** `n` occurs in `s` starting at index `i`. */
  predicate OccursAt(s: string, n: string, i: nat) {
    i + |n| <= |s| && s[i..i + |n|] == n
  }

  /** `s.includes(n)` */
  predicate Contains(s: string, n: string) {
    exists i: nat | i <= |s| :: OccursAt(s, n, i)
  }

  /** A needle holding a character the haystack lacks does not occur in it. */
  lemma NotContainsMissingChar(s: string, n: string, k: nat)
    requires k < |n| && n[k] !in s
    ensures !Contains(s, n)
  {
  }

  /** `includes` is transitive: a string containing `m` contains everything `m` contains. */
  lemma ContainsTransitive(s: string, m: string, n: string)
    requires Contains(s, m) && Contains(m, n)
    ensures Contains(s, n)
  {
    var i: nat :| i <= |s| && OccursAt(s, m, i);
    var j: nat :| j <= |m| && OccursAt(m, n, j);
    forall k | 0 <= k < |n| ensures s[i + j + k] == n[k] {
      assert s[i..i + |m|][j + k] == m[j + k];
      assert m[j..j + |n|][k] == n[k];
    }
    assert OccursAt(s, n, i + j);
  }

  /** `s.split(":")[0]`: the part of `s` before its first colon, or all of `s`
      when it has none. */
  function BaseName(s: string): (b: string)
    ensures StartsWith(s, b)
    ensures ':' !in b
    ensures |b| < |s| ==> s[|b|] == ':'
  {
    if s == [] || s[0] == ':' then [] else [s[0]] + BaseName(s[1..])
  }

  /** The tag after the first colon never influences the base name. */
  lemma BaseNameOfTagged(b: string, tag: string)
    requires ':' !in b
    ensures BaseName(b + ":" + tag) == b
  {
    var s := b + ":" + tag;
    assert s[..|b|] == b;
    assert s[|b|] == ':';
  }

  /** `toLowerCase` on one character, for the ASCII letters. */
  function LowerChar(c: char): char {
    if 'A' <= c <= 'Z' then (c as int + 32) as char else c
  }

  /** `s.toLowerCase()` restricted to ASCII letters; every other character is kept. */
  function ToLower(s: string): string {
    seq(|s|, i requires 0 <= i < |s| => LowerChar(s[i]))
  }

  /** Lowering case twice is lowering it once. */
  lemma ToLowerIdempotent(s: string)
    ensures ToLower(ToLower(s)) == ToLower(s)
  {
  }

  /** The characters `String.prototype.trim` removes: ECMAScript WhiteSpace
      and LineTerminator code points. */
  predicate IsTrimmable(c: char) {
    c == '\t' || c == '\n' || c == '\U{000B}' || c == '\U{000C}' || c == '\r'
    || c == ' ' || c == '\U{00A0}' || c == '\U{1680}'
    || ('\U{2000}' <= c <= '\U{200A}')
    || c == '\U{2028}' || c == '\U{2029}' || c == '\U{202F}' || c == '\U{205F}'
    || c == '\U{3000}' || c == '\U{FEFF}'
  }

  /** Every character of `s` is one `trim` removes (the empty string included). */
  predicate IsBlank(s: string) {
    forall i | 0 <= i < |s| :: IsTrimmable(s[i])
  }

  /** `s.trimStart()`: the longest suffix of `s` that does not start with a trimmable character. */
  function TrimStart(s: string): (r: string)
    ensures |r| <= |s| && r == s[|s| - |r|..]
    ensures IsBlank(s[..|s| - |r|])
    ensures r != [] ==> !IsTrimmable(r[0])
  {
    if s != [] && IsTrimmable(s[0]) then
      var r := TrimStart(s[1..]);
      assert s[1..][..|s| - 1 - |r|] == s[1..|s| - |r|];
      r
    else
      s
  }

  /** `s.trimEnd()`: the longest prefix of `s` that does not end with a trimmable character. */
  function TrimEnd(s: string): (r: string)
    ensures |r| <= |s| && r == s[..|r|]
    ensures IsBlank(s[|r|..])
    ensures r != [] ==> !IsTrimmable(r[|r| - 1])
  {
    if s != [] && IsTrimmable(s[|s| - 1]) then
      var r := TrimEnd(s[..|s| - 1]);
      assert s[..|s| - 1][|r|..] == s[|r|..|s| - 1];
      assert s[|r|..] == s[|r|..|s| - 1] + [s[|s| - 1]];
      r
    else
      s
  }

  /** `s.trim()` */
  function Trim(s: string): string {
    TrimEnd(TrimStart(s))
  }

  /** `!s.trim()` holds exactly for the blank strings. */
  lemma TrimEmptyIffBlank(s: string)
    ensures Trim(s) == [] <==> IsBlank(s)
  {
    var t := TrimStart(s);
    if Trim(s) == [] {
      assert t == [];
      assert s[..|s|] == s;
    }
  }

  /** `!s.trim()`: the name is refused exactly when it is blank. */
  function TrimsToEmpty(s: string): (empty: bool)
    ensures empty <==> IsBlank(s)
  {
    TrimEmptyIffBlank(s);
    Trim(s) == []
  }
}
