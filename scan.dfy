/**
 * The sentence-tag scanner of the translation test script: the global,
 * dot-all pattern `<s(\d+)>(.*?)<\/s\1>` run with `exec` from `lastIndex`
 * until it fails, and the count-agreement verdict built on it.
 *
 * In the pattern the greedy `\d+` can only be followed by `>` at its
 * longest extent, and the lazy `(.*?)` stops at the first occurrence of the
 * closing tag carrying the same digits (the backreference `\1`).
 */
module SentenceScanner {
  import opened Wrappers
  import opened Text
  import opened ResponseParser

  /** One pushed `{id, text}`: the opening tag's digits and the content between the tags. */
  datatype Segment = Segment(id: string, text: string)

  /** A successful `exec`: where the match starts and ends, and its captures. */
  datatype Match = Match(start: nat, end: nat, seg: Segment)

  function OpenTag(id: string): string { "<s" + id + ">" }
  function CloseTag(id: string): string { "</s" + id + ">" }

  predicate AllDigits(s: string) { forall k :: 0 <= k < |s| ==> IsDigit(s[k]) }

  /** The match of the pattern that starts exactly at `p`, if any. */
  function MatchAt(s: string, p: nat): (r: Option<Match>)
    ensures r.Some? ==> r.value.start == p && p < r.value.end <= |s|
  {
    if !OccursAt(s, "<s", p) then None
    else
      var d := Span(s, p + 2, Digit);
      if d == p + 2 || d == |s| || s[d] != '>' then None
      else
        var id := s[p + 2..d];
        match IndexOf(s, CloseTag(id), d + 1)
        case None => None
        case Some(q) => Some(Match(p, q + |CloseTag(id)|, Segment(id, s[d + 1..q])))
  }

  /** The text of a tagged sentence with number `id` and content `text`. */
  function Tagged(id: string, text: string): string { OpenTag(id) + text + CloseTag(id) }

  /**
   * A match is a tagged sentence: an opening tag with a non-empty run of
   * digits, the content, and the closing tag with the same digits; and the
   * content holds no such closing tag (the lazy group stops at the first).
   */
  lemma MatchAtWellFormed(s: string, p: nat)
    requires MatchAt(s, p).Some?
    ensures var m := MatchAt(s, p).value;
      m.seg.id != [] && AllDigits(m.seg.id) &&
      OccursAt(s, Tagged(m.seg.id, m.seg.text), p) && m.end == p + |Tagged(m.seg.id, m.seg.text)| &&
      !Includes(m.seg.text, CloseTag(m.seg.id))
  {
    var d := Span(s, p + 2, Digit);
    var id := s[p + 2..d];
    var q := IndexOf(s, CloseTag(id), d + 1).value;
    var text := s[d + 1..q];
    assert MatchAt(s, p).value == Match(p, q + |CloseTag(id)|, Segment(id, text));
    forall k | 0 <= k < |id| ensures IsDigit(id[k]) {
      assert id[k] == s[p + 2 + k];
    }
    TaggedAt(s, p, d, q, id);
  }

  /**
   * The pieces `MatchAt` reads, put together: `<s`, the digits `s[p+2..d)`,
   * `>`, the content up to `q` and the first closing tag with those digits.
   */
  lemma TaggedAt(s: string, p: nat, d: nat, q: nat, id: string)
    requires OccursAt(s, "<s", p) && p + 2 <= d < q <= |s| && s[d] == '>' && id == s[p + 2..d]
    requires OccursAt(s, CloseTag(id), q)
    requires forall k :: d + 1 <= k < q ==> !OccursAt(s, CloseTag(id), k)
    ensures OccursAt(s, Tagged(id, s[d + 1..q]), p)
    ensures !Includes(s[d + 1..q], CloseTag(id))
  {
    var text := s[d + 1..q];
    assert OccursAt(s, id, p + 2);
    OccursJoin(s, "<s", id, p);
    assert s[d..d + 1] == ">";
    OccursJoin(s, "<s" + id, ">", p);
    assert OccursAt(s, text, d + 1);
    OccursJoin(s, OpenTag(id), text, p);
    OccursJoin(s, OpenTag(id) + text, CloseTag(id), p);
    NoOccurrenceInside(s, d + 1, q, CloseTag(id));
  }

  /** No occurrence of `sub` starting in `s[lo..hi)` means none inside the slice. */
  lemma NoOccurrenceInside(s: string, lo: nat, hi: nat, sub: string)
    requires lo <= hi <= |s| && sub != []
    requires forall k :: lo <= k < hi ==> !OccursAt(s, sub, k)
    ensures !Includes(s[lo..hi], sub)
  {
    var t := s[lo..hi];
    forall k: nat ensures !OccursAt(t, sub, k) {
      if k + |sub| <= |t| {
        var u, v := t[k..k + |sub|], s[lo + k..lo + k + |sub|];
        assert forall j :: 0 <= j < |sub| ==> u[j] == v[j];
        assert u == v;
        assert !OccursAt(s, sub, lo + k);
      }
    }
  }

  /**
   * A well-formed tagged sentence at `p` is matched there, with the same
   * id, and its content is no longer than the sentence's: the match takes
   * the shortest content that reaches a closing tag of the same number.
   */
  lemma MatchAtComplete(s: string, p: nat, id: string, text: string)
    requires id != [] && AllDigits(id)
    requires OccursAt(s, Tagged(id, text), p)
    ensures MatchAt(s, p).Some?
    ensures MatchAt(s, p).value.seg.id == id && |MatchAt(s, p).value.seg.text| <= |text|
  {
    var d := p + 2 + |id|;
    OccursSplit(s, OpenTag(id) + text, CloseTag(id), p);
    OccursSplit(s, OpenTag(id), text, p);
    OccursSplit(s, "<s" + id, ">", p);
    OccursSplit(s, "<s", id, p);
    assert s[d] == s[d..d + 1][0] == '>';
    forall k | p + 2 <= k < d ensures IsDigit(s[k]) {
      assert s[k] == s[p + 2..d][k - p - 2] == id[k - p - 2];
    }
    SpanIs(s, p + 2, d);
    assert OccursAt(s, CloseTag(id), d + 1 + |text|);
  }

  /** A run of digits followed by a non-digit is exactly the greedy `\d+` run. */
  lemma SpanIs(s: string, i: nat, j: nat)
    requires i <= j < |s| && !IsDigit(s[j])
    requires forall k :: i <= k < j ==> IsDigit(s[k])
    ensures Span(s, i, Digit) == j
    decreases j - i
  {
    if i < j {
      SpanIs(s, i + 1, j);
    }
  }

  /** `exec` from `lastIndex`: the match at the leftmost position at or after it. */
  function Exec(s: string, lastIndex: nat): (r: Option<Match>)
    requires lastIndex <= |s|
    ensures r.Some? ==> lastIndex <= r.value.start && MatchAt(s, r.value.start) == r
    decreases |s| - lastIndex
  {
    match MatchAt(s, lastIndex)
    case Some(m) => Some(m)
    case None => if lastIndex == |s| then None else Exec(s, lastIndex + 1)
  }

  /** No match starts between `lastIndex` and the one `exec` returns (or the end, when it fails). */
  lemma {:induction false} ExecLeftmost(s: string, lastIndex: nat, p: nat)
    requires lastIndex <= p <= |s|
    requires Exec(s, lastIndex).None? || p < Exec(s, lastIndex).value.start
    ensures MatchAt(s, p).None?
    decreases p - lastIndex
  {
    if lastIndex < p {
      ExecLeftmost(s, lastIndex + 1, p);
    }
  }

  /** When no match starts at or after `lastIndex`, `exec` fails. */
  lemma {:induction false} ExecNone(s: string, lastIndex: nat)
    requires lastIndex <= |s|
    requires forall p :: lastIndex <= p <= |s| ==> MatchAt(s, p).None?
    ensures Exec(s, lastIndex).None?
    decreases |s| - lastIndex
  {
    if lastIndex < |s| {
      ExecNone(s, lastIndex + 1);
    }
  }

  /** The matches a global scan from `from` collects, left to right. */
  function Scan(s: string, from: nat): seq<Match>
    requires from <= |s|
    decreases |s| - from
  {
    match Exec(s, from)
    case None => []
    case Some(m) => [m] + Scan(s, m.end)
  }

  /** The `{id, text}` captures of a run of matches, in order. */
  function SegmentsOf(ms: seq<Match>): (r: seq<Segment>)
    ensures |r| == |ms|
  {
    if ms == [] then [] else [ms[0].seg] + SegmentsOf(ms[1..])
  }

  /** Every scanned match is the match at its own start, at or after the scan's starting point. */
  lemma ScanFound(s: string, from: nat)
    requires from <= |s|
    ensures var ms := Scan(s, from);
      forall i :: 0 <= i < |ms| ==> from <= ms[i].start && MatchAt(s, ms[i].start) == Some(ms[i])
  {
    forall i | 0 <= i < |Scan(s, from)|
      ensures from <= Scan(s, from)[i].start && MatchAt(s, Scan(s, from)[i].start) == Some(Scan(s, from)[i])
    {
      ScanFoundAt(s, from, i);
    }
  }

  lemma {:induction false} ScanFoundAt(s: string, from: nat, i: nat)
    requires from <= |s| && i < |Scan(s, from)|
    ensures var m := Scan(s, from)[i];
      from <= m.start && MatchAt(s, m.start) == Some(m)
    decreases i
  {
    var m := Exec(s, from).value;
    var rest := Scan(s, m.end);
    assert Scan(s, from) == [m] + rest;
    if i > 0 {
      ScanFoundAt(s, m.end, i - 1);
      Shifted(Scan(s, from), m, rest, i);
    }
  }

  /** Past the head of `[m] + rest`, index `i` is index `i - 1` of `rest`. */
  lemma Shifted(ms: seq<Match>, m: Match, rest: seq<Match>, i: nat)
    requires ms == [m] + rest && 0 < i < |ms|
    ensures ms[i] == rest[i - 1]
  {
  }

  lemma {:induction false} ScanDisjointAt(s: string, from: nat, i: nat)
    requires from <= |s| && i + 1 < |Scan(s, from)|
    ensures Scan(s, from)[i].end <= Scan(s, from)[i + 1].start
    decreases i
  {
    var m := Exec(s, from).value;
    var rest := Scan(s, m.end);
    assert Scan(s, from) == [m] + rest;
    Shifted(Scan(s, from), m, rest, i + 1);
    if i == 0 {
      assert rest[0] == Exec(s, m.end).value;
    } else {
      ScanDisjointAt(s, m.end, i - 1);
      Shifted(Scan(s, from), m, rest, i);
    }
  }

  lemma {:induction false} ScanGapAt(s: string, from: nat, i: nat, p: nat)
    requires from <= |s| && i + 1 < |Scan(s, from)|
    requires Scan(s, from)[i].end <= p < Scan(s, from)[i + 1].start
    ensures MatchAt(s, p).None?
    decreases i
  {
    var m := Exec(s, from).value;
    var rest := Scan(s, m.end);
    assert Scan(s, from) == [m] + rest;
    Shifted(Scan(s, from), m, rest, i + 1);
    if i == 0 {
      ExecLeftmost(s, m.end, p);
    } else {
      ScanGapAt(s, m.end, i - 1, p);
      Shifted(Scan(s, from), m, rest, i);
    }
  }

  /**
   * The scan collects matches, in order of appearance and without overlap,
   * all at or after its starting point; and no match starts before the
   * first of them, in any gap between two of them, or after the last of them.
   */
  lemma ScanOrdered(s: string, from: nat)
    requires from <= |s|
    ensures var ms := Scan(s, from);
      (forall i :: 0 <= i < |ms| ==> from <= ms[i].start && MatchAt(s, ms[i].start) == Some(ms[i])) &&
      (forall i :: 0 <= i < |ms| - 1 ==> ms[i].end <= ms[i + 1].start) &&
      (forall p :: from <= p <= |s| && (ms == [] || p < ms[0].start) ==> MatchAt(s, p).None?) &&
      (forall i, p :: 0 <= i < |ms| - 1 && ms[i].end <= p < ms[i + 1].start ==> MatchAt(s, p).None?) &&
      (ms != [] ==> forall p :: ms[|ms| - 1].end <= p <= |s| ==> MatchAt(s, p).None?)
  {
    var ms := Scan(s, from);
    ScanFound(s, from);
    forall i | 0 <= i < |ms| - 1 ensures ms[i].end <= ms[i + 1].start {
      ScanDisjointAt(s, from, i);
    }
    forall p | from <= p <= |s| && (ms == [] || p < ms[0].start) ensures MatchAt(s, p).None? {
      ExecLeftmost(s, from, p);
    }
    forall i, p | 0 <= i < |ms| - 1 && ms[i].end <= p < ms[i + 1].start ensures MatchAt(s, p).None? {
      ScanGapAt(s, from, i, p);
    }
    if ms != [] {
      forall p | ms[|ms| - 1].end <= p <= |s| ensures MatchAt(s, p).None? {
        ScanTailAt(s, from, p);
      }
    }
  }

  /** No match starts after the end of the last scanned match. */
  lemma {:induction false} ScanTailAt(s: string, from: nat, p: nat)
    requires from <= |s| && Scan(s, from) != []
    requires Scan(s, from)[|Scan(s, from)| - 1].end <= p <= |s|
    ensures MatchAt(s, p).None?
    decreases |Scan(s, from)|
  {
    var m := Exec(s, from).value;
    var rest := Scan(s, m.end);
    assert Scan(s, from) == [m] + rest;
    if rest == [] {
      ExecLeftmost(s, m.end, p);
    } else {
      Shifted(Scan(s, from), m, rest, |Scan(s, from)| - 1);
      ScanTailAt(s, m.end, p);
    }
  }

  /**
   * The `while (exec(...) !== null)` loop over one block, starting from
   * `lastIndex` 0 (as the script resets it before every translation block;
   * the failed `exec` that ends the original's loop resets it too).
   */
  method ScanSentences(block: string) returns (sentences: seq<Segment>)
    ensures sentences == SegmentsOf(Scan(block, 0))
  {
    sentences := [];
    var lastIndex := 0;
    while true
      invariant lastIndex <= |block|
      invariant SegmentsOf(Scan(block, 0)) == sentences + SegmentsOf(Scan(block, lastIndex))
      decreases |block| - lastIndex
    {
      var match_ := Exec(block, lastIndex);
      if match_.None? {
        break;
      }
      var m := match_.value;
      ScanStep(block, lastIndex, sentences);
      sentences := sentences + [m.seg];
      lastIndex := m.end;
    }
  }

  /** One successful `exec` moves its segment from the rest of the scan to the segments collected so far. */
  lemma ScanStep(s: string, from: nat, done: seq<Segment>)
    requires from <= |s| && Exec(s, from).Some?
    ensures var m := Exec(s, from).value;
      from < m.end <= |s| && done + SegmentsOf(Scan(s, from)) == (done + [m.seg]) + SegmentsOf(Scan(s, m.end))
  {
    var m := Exec(s, from).value;
    ScanUnfold(s, from);
    MoveFront(done, m.seg, SegmentsOf(Scan(s, m.end)));
  }

  lemma ScanUnfold(s: string, from: nat)
    requires from <= |s| && Exec(s, from).Some?
    ensures var m := Exec(s, from).value;
      from < m.end <= |s| && SegmentsOf(Scan(s, from)) == [m.seg] + SegmentsOf(Scan(s, m.end))
  {
    var m := Exec(s, from).value;
    var rest := Scan(s, m.end);
    assert Scan(s, from) == [m] + rest;
    assert SegmentsOf([m] + rest) == [m.seg] + SegmentsOf(rest);
  }

  lemma MoveFront(done: seq<Segment>, x: Segment, later: seq<Segment>)
    ensures done + ([x] + later) == (done + [x]) + later
  {
  }

  /** A closing tag with another number ends no sentence: `<s1>a</s2>` holds none. */
  lemma MismatchedCloseTag()
    ensures Scan("<s1>a</s2>", 0) == []
  {
    var s := "<s1>a</s2>";
    assert s[0] == '<' && s[1] == 's' && s[2] == '1' && s[3] == '>' && s[4] == 'a';
    assert s[5] == '<' && s[6] == '/' && s[7] == 's' && s[8] == '2' && s[9] == '>';
    assert Span(s, 3, Digit) == 3;
    assert Span(s, 2, Digit) == 3;
    assert s[2..3] == "1";
    assert CloseTag("1") == "</s1>";
    assert s[4..9][0] == 'a';
    assert s[5..10][3] == '2';
    assert IndexOf(s, CloseTag("1"), 6).None?;
    assert IndexOf(s, CloseTag("1"), 5).None?;
    assert IndexOf(s, CloseTag("1"), 4).None?;
    assert MatchAt(s, 0).None?;
    forall p | 1 <= p <= |s| ensures MatchAt(s, p).None? {
      if p + 2 <= |s| {
        assert s[p..p + 2][0] == s[p] && s[p..p + 2][1] == s[p + 1];
      }
    }
    ExecNone(s, 0);
  }

  /**
   * How many sentences the block of `lang` holds. A missing translation is
   * read as the empty block: `exec` on `undefined` scans the text
   * "undefined", which holds no tag either.
   */
  function Count(translations: map<string, string>, lang: string): nat {
    |Scan(Lookup(translations, lang), 0)|
  }

  /** The loop filling `translationCounts`: the sentence count of each requested block. */
  method CountSentences(translations: map<string, string>, outputLanguages: seq<string>)
    returns (translationCounts: map<string, nat>)
    ensures forall k :: 0 <= k < |outputLanguages| ==>
      outputLanguages[k] in translationCounts && translationCounts[outputLanguages[k]] == Count(translations, outputLanguages[k])
  {
    translationCounts := map[];
    for i := 0 to |outputLanguages|
      invariant forall k :: 0 <= k < i ==>
        outputLanguages[k] in translationCounts && translationCounts[outputLanguages[k]] == Count(translations, outputLanguages[k])
    {
      var lang := outputLanguages[i];
      var sentences := ScanSentences(Lookup(translations, lang));
      translationCounts := translationCounts[lang := |sentences|];
    }
  }

  /** `outputLanguages.every(lang => translationCounts[lang] === originalSentences.length)`. */
  method EveryCountMatches(translationCounts: map<string, nat>, outputLanguages: seq<string>, originalCount: nat)
    returns (allMatch: bool)
    requires forall k :: 0 <= k < |outputLanguages| ==> outputLanguages[k] in translationCounts
    ensures allMatch <==> forall k :: 0 <= k < |outputLanguages| ==> translationCounts[outputLanguages[k]] == originalCount
  {
    allMatch := true;
    for i := 0 to |outputLanguages|
      invariant allMatch <==> forall k :: 0 <= k < i ==> translationCounts[outputLanguages[k]] == originalCount
    {
      if translationCounts[outputLanguages[i]] != originalCount {
        allMatch := false;
      }
    }
  }

  /**
   * The count check of `testTranslation`: `allMatch` holds exactly when
   * every requested block has as many sentences as the original; the
   * verdict is `allMatch`, except that an original without sentences makes
   * the preview of its first sentence throw, and the test then reports failure.
   */
  method TestTranslation(original: string, translations: map<string, string>, outputLanguages: seq<string>)
    returns (verdict: bool, allMatch: bool)
    ensures allMatch <==>
      forall k :: 0 <= k < |outputLanguages| ==> Count(translations, outputLanguages[k]) == |Scan(original, 0)|
    ensures verdict <==> allMatch && Scan(original, 0) != []
  {
    var originalSentences := ScanSentences(original);
    var translationCounts := CountSentences(translations, outputLanguages);
    allMatch := EveryCountMatches(translationCounts, outputLanguages, |originalSentences|);
    if |originalSentences| == 0 {
      verdict := false;
    } else {
      verdict := allMatch;
    }
  }

  /**
   * A block without any `<s` holds no sentence; in particular the empty
   * block a missing translation reads as.
   */
  lemma NoOpeningNoSentence(s: string)
    requires !Includes(s, "<s")
    ensures Scan(s, 0) == []
  {
    forall p: nat | p <= |s| ensures MatchAt(s, p).None? {
      assert !OccursAt(s, "<s", p);
    }
    ExecNone(s, 0);
  }
}
