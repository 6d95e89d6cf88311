/**
 * The JavaScript string primitives the translation pipeline relies on:
 * the regular-expression character classes `\s`, `[A-Z]` and `\d`,
 * `String.prototype.trim` and `String.prototype.includes`.
 */
module Text {
  import opened Wrappers

  /** JavaScript's `\s`: WhiteSpace and LineTerminator code points (the same set `trim` strips). */
  predicate IsSpace(c: char) {
    c == '\t' || c == '\n' || c == '\U{B}' || c == '\U{C}' || c == '\r' || c == ' ' ||
    c == '\U{A0}' || c == '\U{1680}' || ('\U{2000}' <= c <= '\U{200A}') ||
    c == '\U{2028}' || c == '\U{2029}' || c == '\U{202F}' || c == '\U{205F}' ||
    c == '\U{3000}' || c == '\U{FEFF}'
  }

  /** The class `[A-Z]`. */
  predicate IsUpper(c: char) { 'A' <= c <= 'Z' }

  /** The class `\d` (ASCII digits only, as in JavaScript). */
  predicate IsDigit(c: char) { '0' <= c <= '9' }

  datatype CharClass = Space | Upper | Digit

  predicate InClass(c: char, cls: CharClass) {
    match cls
    case Space => IsSpace(c)
    case Upper => IsUpper(c)
    case Digit => IsDigit(c)
  }

  /**
   * The end of the longest run of `cls` characters starting at `i`: where a greedy
   * `\s*`, `[A-Z]+` or `\d+` starting at `i` stops.
   */
  function Span(s: string, i: nat, cls: CharClass): (j: nat)
    requires i <= |s|
    ensures i <= j <= |s|
    ensures forall k :: i <= k < j ==> InClass(s[k], cls)
    ensures j == |s| || !InClass(s[j], cls)
    decreases |s| - i
  {
    if i == |s| || !InClass(s[i], cls) then i else Span(s, i + 1, cls)
  }

  /** The start of the trailing run of spaces of `s[..j]`, never going below `lo`. */
  function SpanBack(s: string, lo: nat, j: nat): (k: nat)
    requires lo <= j <= |s|
    ensures lo <= k <= j
    ensures forall m :: k <= m < j ==> IsSpace(s[m])
    ensures k == lo || !IsSpace(s[k - 1])
    decreases j
  {
    if j == lo || !IsSpace(s[j - 1]) then j else SpanBack(s, lo, j - 1)
  }

  predicate AllSpaces(s: string) { forall k :: 0 <= k < |s| ==> IsSpace(s[k]) }

  /** `r` sits at offset `a` of `s` with nothing but spaces around it. */
  predicate PaddedAt(s: string, r: string, a: nat) {
    a + |r| <= |s| && s[a..a + |r|] == r &&
    (forall k :: 0 <= k < a ==> IsSpace(s[k])) &&
    (forall k :: a + |r| <= k < |s| ==> IsSpace(s[k]))
  }

  /** `String.prototype.trim`: strips leading and trailing whitespace. */
  function Trim(s: string): (r: string)
    ensures PaddedAt(s, r, Span(s, 0, Space))
    ensures r == [] || (!IsSpace(r[0]) && !IsSpace(r[|r| - 1]))
  {
    var a := Span(s, 0, Space);
    var b := SpanBack(s, a, |s|);
    assert forall k :: 0 <= k < |s[b..]| ==> s[b..][k] == s[b + k];
    s[a..b]
  }

  /** `trim` is the only padded infix with non-space ends. */
  lemma TrimUnique(s: string, r: string, a: nat)
    requires PaddedAt(s, r, a)
    requires r == [] || (!IsSpace(r[0]) && !IsSpace(r[|r| - 1]))
    ensures r == Trim(s)
  {
    var r0, a0 := Trim(s), Span(s, 0, Space);
    if r == [] {
      assert a0 == |s|;
    } else {
      assert s[a] == r[0];
      assert a0 == a;
      assert s[a + |r| - 1] == r[|r| - 1];
      if r0 != [] {
        assert s[a0 + |r0| - 1] == r0[|r0| - 1];
      }
      assert |r0| == |r|;
    }
  }

  /** Leading spaces make no difference to `trim`: skipping a run of them keeps the trimmed text. */
  lemma TrimAfterSpaces(s: string, a: nat, c: nat)
    requires a <= c <= |s|
    requires forall k :: a <= k < c ==> IsSpace(s[k])
    ensures Trim(s[c..]) == Trim(s[a..])
  {
    var u, v := s[c..], s[a..];
    var r, b := Trim(u), Span(u, 0, Space);
    var n := c - a;
    assert v[n + b..n + b + |r|] == u[b..b + |r|];
    forall k | n + b + |r| <= k < |v| ensures IsSpace(v[k]) {
      assert v[k] == u[k - n];
    }
    forall k | 0 <= k < n + b ensures IsSpace(v[k]) {
      if k >= n { assert v[k] == u[k - n]; } else { assert v[k] == s[a + k]; }
    }
    TrimUnique(v, r, n + b);
  }

  /** A greedy `\s*` in front of a trimmed capture changes nothing. */
  lemma TrimAfterSpan(s: string, a: nat)
    requires a <= |s|
    ensures Trim(s[Span(s, a, Space)..]) == Trim(s[a..])
  {
    TrimAfterSpaces(s, a, Span(s, a, Space));
  }

  predicate OccursAt(s: string, sub: string, i: nat) {
    i + |sub| <= |s| && s[i..i + |sub|] == sub
  }

  /** The leftmost occurrence of `sub` in `s` at or after `from`, if any. */
  function IndexOf(s: string, sub: string, from: nat): (r: Option<nat>)
    ensures r.Some? ==> from <= r.value && OccursAt(s, sub, r.value)
    ensures forall k :: from <= k && (r.None? || k < r.value) ==> !OccursAt(s, sub, k)
    decreases |s| + 1 - from
  {
    if from + |sub| > |s| then None
    else if OccursAt(s, sub, from) then Some(from)
    else IndexOf(s, sub, from + 1)
  }

  /** An occurrence of `a + b` is an occurrence of `a` followed by one of `b`. */
  lemma OccursSplit(s: string, a: string, b: string, p: nat)
    requires OccursAt(s, a + b, p)
    ensures OccursAt(s, a, p) && OccursAt(s, b, p + |a|)
  {
    var n := |a + b|;
    assert s[p..p + |a|] == s[p..p + n][..|a|];
    assert s[p + |a|..p + n] == s[p..p + n][|a|..];
    AppendParts(a, b);
  }

  /** An occurrence of `a` followed by one of `b` is an occurrence of `a + b`. */
  lemma OccursJoin(s: string, a: string, b: string, p: nat)
    requires OccursAt(s, a, p) && OccursAt(s, b, p + |a|)
    ensures OccursAt(s, a + b, p)
  {
    assert s[p..p + |a| + |b|] == s[p..p + |a|] + s[p + |a|..p + |a| + |b|];
  }

  /** `String.prototype.includes`. */
  predicate Includes(s: string, sub: string) {
    IndexOf(s, sub, 0).Some?
  }

  lemma IncludesAt(s: string, sub: string, i: nat)
    requires OccursAt(s, sub, i)
    ensures Includes(s, sub)
  {
  }

  /** The two halves of a concatenation. */
  lemma AppendParts(a: string, b: string)
    ensures (a + b)[..|a|] == a && (a + b)[|a|..] == b
  {
  }

  lemma AppendAssoc(a: string, b: string, c: string)
    ensures (a + b) + c == a + (b + c)
  {
  }

  /** The middle part of a concatenation occurs right after the first. */
  lemma OccursInMiddle(a: string, b: string, c: string)
    ensures OccursAt(a + b + c, b, |a|)
  {
    var s := a + b + c;
    assert s[|a|..|a| + |b|] == b by {
      forall k | 0 <= k < |b| ensures s[|a| + k] == b[k] { }
    }
  }
}
