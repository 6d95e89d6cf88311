/**
 * The response aligner: finds each language's labelled block in the
 * generator's reply. The strict patterns of `parseTranslationResponse` and
 * the loose fallback pattern of the translate handler are written out as
 * matchers over the reply text; the regular expressions they model are
 *
 *   input block:   LABEL(?:\s*\(文言文\))?:\s*(.*?)(?=\n\n[A-Z]+|\n[A-Z]+(?:\s*\(|:)|$)   (flag s)
 *   output block:  LABEL(?:\s*\(文言文\))?:\s*(.*?)(?=\n[A-Z]+:|$)                        (flag s)
 *   fallback:      LABEL:?\s*(.*)                                                        (flags i, s)
 *
 * where the parenthesised `(文言文)` part exists only in the `ANCIENT` patterns.
 * A backtracking engine tries the longest extent of a greedy run first and
 * keeps it whenever the rest of the pattern succeeds from there, so every
 * matcher uses the longest run. That rest always succeeds: a `[A-Z]+` or a
 * `\s*` before `(` or `(文言文)` is followed by a character its own class
 * excludes, which only the longest run can reach; a `\s*` before `(.*?)` or
 * `(.*)` is followed by a group that can run on to the end of the text, where
 * `$` holds (flag `s` lets `.` match line breaks).
 */
module ResponseAligner {
  import opened Wrappers
  import opened Text
  import opened Languages

  const AncientMark: string := "(文言文):"

  /**
   * If a strict header for `l` starts at `i`, the position just after its
   * colon: the label, then for `ANCIENT` optionally spaces and `(文言文)`, then `:`.
   */
  function HeaderEndAt(s: string, i: nat, l: Language): (r: Option<nat>)
    ensures r.Some? ==>
      OccursAt(s, Label(l), i) && i + |Label(l)| < r.value <= |s| && s[r.value - 1] == ':' &&
      (r.value == i + |Label(l)| + 1 ||
       (l == Ancient && r.value >= i + |Label(l)| + |AncientMark| &&
        AllSpaces(s[i + |Label(l)|..r.value - |AncientMark|]) &&
        OccursAt(s, AncientMark, r.value - |AncientMark|)))
    ensures r.Some? <==>
      OccursAt(s, Label(l), i) &&
      ((i + |Label(l)| < |s| && s[i + |Label(l)|] == ':') ||
       (l == Ancient && OccursAt(s, AncientMark, Span(s, i + |Label(l)|, Space))))
  {
    if !OccursAt(s, Label(l), i) then None
    else
      var j := i + |Label(l)|;
      var k := Span(s, j, Space);
      if l == Ancient && OccursAt(s, AncientMark, k) then
        assert |AncientMark| == 6 && AncientMark[5] == ':';
        assert s[k..k + |AncientMark|][|AncientMark| - 1] == ':';
        assert s[j..k] == s[j..k + |AncientMark| - |AncientMark|];
        Some(k + |AncientMark|)
      else if j < |s| && s[j] == ':' then Some(j + 1)
      else None
  }

  /** A label followed directly by a colon is a strict header, ending after that colon. */
  lemma PlainHeaderMatches(s: string, i: nat, l: Language)
    requires OccursAt(s, Label(l) + ":", i)
    ensures HeaderEndAt(s, i, l) == Some(i + |Label(l)| + 1)
  {
    var j := i + |Label(l)|;
    OccursSplit(s, Label(l), ":", i);
    assert s[j] == s[j..j + 1][0] == ':';
    assert Span(s, j, Space) == j;
    assert |AncientMark| == 6 && AncientMark[0] == '(';
    if j + |AncientMark| <= |s| {
      assert s[j..j + |AncientMark|][0] == s[j];
    }
  }

  /** The leftmost strict header for `l` at or after `from`: its position and where it ends. */
  function FindHeader(s: string, l: Language, from: nat): (r: Option<(nat, nat)>)
    requires from <= |s|
    ensures r.Some? ==> from <= r.value.0 <= |s| && HeaderEndAt(s, r.value.0, l) == Some(r.value.1)
    ensures forall i :: from <= i <= |s| && (r.None? || i < r.value.0) ==> HeaderEndAt(s, i, l).None?
    decreases |s| - from
  {
    match HeaderEndAt(s, from, l)
    case Some(e) => Some((from, e))
    case None => if from == |s| then None else FindHeader(s, l, from + 1)
  }

  /** Which lookahead ends a block: the input block's or an output block's. */
  datatype Terminator = InputEnd | OutputEnd

  /** `\n[A-Z]+:` at `p`. */
  predicate LabelLineAt(s: string, p: nat) {
    p < |s| && s[p] == '\n' &&
    var k := Span(s, p + 1, Upper);
    p + 1 < k < |s| && s[k] == ':'
  }

  /** `\n[A-Z]+\s*\(` at `p`. */
  predicate LabelParenAt(s: string, p: nat) {
    p < |s| && s[p] == '\n' &&
    var k := Span(s, p + 1, Upper);
    p + 1 < k && var m := Span(s, k, Space); m < |s| && s[m] == '('
  }

  /** `\n\n[A-Z]+` at `p`. */
  predicate BlankLineLabelAt(s: string, p: nat) {
    p + 2 < |s| && s[p] == '\n' && s[p + 1] == '\n' && IsUpper(s[p + 2])
  }

  /** Whether the block's lookahead succeeds at `p` (`$` is the end of the text: no `m` flag). */
  predicate TerminatorAt(s: string, p: nat, kind: Terminator)
    requires p <= |s|
  {
    p == |s| ||
    match kind
    case OutputEnd => LabelLineAt(s, p)
    case InputEnd => BlankLineLabelAt(s, p) || LabelLineAt(s, p) || LabelParenAt(s, p)
  }

  /** Where the lazy `(.*?)` that starts at `from` stops: the first position where the lookahead holds. */
  function BlockEnd(s: string, from: nat, kind: Terminator): (p: nat)
    requires from <= |s|
    ensures from <= p <= |s| && TerminatorAt(s, p, kind)
    ensures forall q :: from <= q < p ==> !TerminatorAt(s, q, kind)
    decreases |s| - from
  {
    if TerminatorAt(s, from, kind) then from else BlockEnd(s, from + 1, kind)
  }

  /** Where a block sits: its header, the start of its content (after `:\s*`) and the end of its content. */
  datatype BlockSpan = BlockSpan(header: nat, start: nat, end: nat)

  /**
   * The match of a strict block pattern: the leftmost header, content starting
   * after the header's colon and all the whitespace that follows it, and
   * ending at the first position where the terminator holds.
   */
  function Locate(s: string, l: Language, kind: Terminator): (r: Option<BlockSpan>)
    ensures r.None? <==> forall i :: 0 <= i <= |s| ==> HeaderEndAt(s, i, l).None?
    ensures r.Some? ==>
      var b := r.value;
      b.header <= |s| && HeaderEndAt(s, b.header, l).Some? &&
      (forall i :: 0 <= i < b.header ==> HeaderEndAt(s, i, l).None?) &&
      b.start == Span(s, HeaderEndAt(s, b.header, l).value, Space) &&
      b.start <= b.end <= |s| && TerminatorAt(s, b.end, kind) &&
      (forall q :: b.start <= q < b.end ==> !TerminatorAt(s, q, kind))
  {
    match FindHeader(s, l, 0)
    case None => None
    case Some((i, e)) =>
      var c := Span(s, e, Space);
      Some(BlockSpan(i, c, BlockEnd(s, c, kind)))
  }

  /** The trimmed content of a strict block, `match[1].trim()`, or `None` when the header is absent. */
  function Block(s: string, l: Language, kind: Terminator): Option<string> {
    match Locate(s, l, kind)
    case None => None
    case Some(b) => Some(Trim(s[b.start..b.end]))
  }

  /** Every output-block terminator is an input-block terminator. */
  lemma OutputEndIsInputEnd(s: string, p: nat)
    requires p <= |s|
    ensures TerminatorAt(s, p, OutputEnd) ==> TerminatorAt(s, p, InputEnd)
  {
  }

  /**
   * The input block of a language ends no later than its output block, so
   * the input block's content is a prefix of the output block's.
   */
  lemma {:induction false} InputBlockWithinOutputBlock(s: string, l: Language)
    ensures Locate(s, l, InputEnd).Some? <==> Locate(s, l, OutputEnd).Some?
    ensures Locate(s, l, InputEnd).Some? ==>
      var bi, bo := Locate(s, l, InputEnd).value, Locate(s, l, OutputEnd).value;
      bi.header == bo.header && bi.start == bo.start && bi.end <= bo.end
  {
    if Locate(s, l, InputEnd).Some? {
      var bi, bo := Locate(s, l, InputEnd).value, Locate(s, l, OutputEnd).value;
      OutputEndIsInputEnd(s, bo.end);
    }
  }

  /**
   * A line `ANCIENT (文言文):` ends an input block but not an output block:
   * the output terminator needs the colon right after the capitals.
   */
  lemma AncientLineEndsOnlyInputBlocks(s: string, p: nat)
    requires OccursAt(s, "\nANCIENT (文言文):", p)
    ensures !TerminatorAt(s, p, OutputEnd) && TerminatorAt(s, p, InputEnd)
  {
    var w := s[p..p + 15];
    assert w == "\nANCIENT (文言文):";
    assert s[p] == w[0] == '\n';
    forall k | p + 1 <= k < p + 8 ensures IsUpper(s[k]) {
      assert s[k] == w[k - p];
    }
    assert s[p + 8] == w[8] == ' ';
    assert s[p + 9] == w[9] == '(';
    var k := Span(s, p + 1, Upper);
    assert k == p + 8;
    assert Span(s, k, Space) == p + 9;
  }

  // ----- the loose fallback pattern -----

  /** Case-insensitive occurrence (flag `i`) of the upper-case label `up` at `i`. */
  predicate OccursIgnoringCaseAt(s: string, up: string, i: nat) {
    i + |up| <= |s| && forall k :: 0 <= k < |up| ==> AsciiUpper(s[i + k]) == up[k]
  }

  /** The leftmost case-insensitive occurrence of `up` at or after `from`. */
  function IndexOfIgnoringCase(s: string, up: string, from: nat): (r: Option<nat>)
    ensures r.Some? ==> from <= r.value && r.value + |up| <= |s| && OccursIgnoringCaseAt(s, up, r.value)
    ensures forall k :: from <= k && (r.None? || k < r.value) ==> !OccursIgnoringCaseAt(s, up, k)
    decreases |s| + 1 - from
  {
    if from + |up| > |s| then None
    else if OccursIgnoringCaseAt(s, up, from) then Some(from)
    else IndexOfIgnoringCase(s, up, from + 1)
  }

  /**
   * `LABEL:?\s*(.*)` with flags `i` and `s`, `match[1].trim()`, for the
   * upper-case label `up`: the trimmed remainder of the whole reply after the
   * first case-insensitive occurrence of the label and an optional colon.
   */
  function LooseMatch(s: string, up: string): (r: Option<string>)
    ensures r.None? <==> forall i :: 0 <= i ==> !OccursIgnoringCaseAt(s, up, i)
    ensures match IndexOfIgnoringCase(s, up, 0)
      case None => r.None?
      case Some(i) => r == Some(Trim(s[AfterOptionalColon(s, i + |up|)..]))
  {
    match IndexOfIgnoringCase(s, up, 0)
    case None => None
    case Some(i) => Some(LooseRest(s, i + |up|))
  }

  /**
   * The capture of `:?\s*(.*)` at `j`, trimmed: the whole rest of the reply
   * after the optional colon, trimmed, since the `\s*` before the capture
   * changes nothing.
   */
  function LooseRest(s: string, j: nat): (r: string)
    requires j <= |s|
    ensures r == Trim(s[AfterOptionalColon(s, j)..])
  {
    TrimAfterSpan(s, AfterOptionalColon(s, j));
    Trim(s[Span(s, AfterOptionalColon(s, j), Space)..])
  }

  /** The fallback pattern built from a language's label. */
  function LooseBlock(s: string, l: Language): Option<string> {
    LooseMatch(s, Label(l))
  }

  /** Past the `:?` of the fallback pattern. */
  function AfterOptionalColon(s: string, j: nat): (k: nat)
    requires j <= |s|
    ensures j <= k <= |s|
  {
    if j < |s| && s[j] == ':' then j + 1 else j
  }
}
