/**
 * `parseTranslationResponse` and the handler's fallback pass: the reply is
 * cut into the original's block and one block per requested output
 * language, and requested languages left without a usable entry are then
 * refilled with the loose pattern.
 */
module ResponseParser {
  import opened Wrappers
  import opened Text
  import opened Languages
  import opened ResponseAligner
  import PromptComposer

  /** `result.original`. */
  datatype Original = Original(language: Language, text: string)

  /** The parse result: the original block and the `translations` object, keyed by request spelling. */
  datatype Parsed = Parsed(original: Original, translations: map<string, string>)

  /** `translations[k]` as JavaScript reads it for a truthiness test: a missing key reads as `""`. */
  function Lookup(m: map<string, string>, k: string): string {
    if k in m then m[k] else ""
  }

  /** An entry of `m`, `None` when the key is absent. */
  function Entry(m: map<string, string>, k: string): Option<string> {
    if k in m then Some(m[k]) else None
  }

  /** The trimmed input block, or `""` when the input header is absent. */
  function OriginalText(response: string, input: Language): string {
    match Block(response, input, InputEnd)
    case None => ""
    case Some(t) => t
  }

  /**
   * `parseTranslationResponse` for registered languages: an empty reply (the
   * only falsy string) gives an empty original and no translations; otherwise
   * the original is the input block and each requested language whose
   * header occurs gets its output block, keyed by its request spelling.
   */
  method ParseTranslationResponse(response: string, inputLanguage: Language, outputLanguages: seq<Language>)
    returns (result: Parsed)
    ensures result.original.language == inputLanguage
    ensures response == "" ==> result.original.text == "" && result.translations == map[]
    ensures response != "" ==> result.original.text == OriginalText(response, inputLanguage)
    ensures response != "" ==> result.translations == Translations(response, outputLanguages)
    ensures forall k :: k in result.translations ==> Parse(k).Some?
    ensures forall l :: Name(l) in result.translations <==> l in outputLanguages && Block(response, l, OutputEnd).Some?
    ensures forall l :: Name(l) in result.translations ==> result.translations[Name(l)] == Block(response, l, OutputEnd).value
  {
    result := Parsed(Original(inputLanguage, ""), map[]);
    if response == "" {
      return;
    }
    var inputMatch := Block(response, inputLanguage, InputEnd);
    if inputMatch.Some? {
      result := result.(original := result.original.(text := inputMatch.value));
    }
    for i := 0 to |outputLanguages|
      invariant result.original == Original(inputLanguage, OriginalText(response, inputLanguage))
      invariant result.translations == Translations(response, outputLanguages[..i])
    {
      var lang := outputLanguages[i];
      var m := Block(response, lang, OutputEnd);
      if m.Some? {
        result := result.(translations := result.translations[Name(lang) := m.value]);
      }
      TranslationsStep(response, outputLanguages, i);
    }
    assert outputLanguages[..|outputLanguages|] == outputLanguages;
    TranslationsEntries(response, outputLanguages);
  }

  /** The `translations` the strict pass builds from the requested languages, in request order. */
  function Translations(response: string, outs: seq<Language>): map<string, string>
    decreases |outs|
  {
    if outs == [] then map[]
    else
      var tr, last := Translations(response, outs[..|outs| - 1]), outs[|outs| - 1];
      match Block(response, last, OutputEnd)
      case None => tr
      case Some(t) => tr[Name(last) := t]
  }

  lemma TranslationsStep(response: string, outs: seq<Language>, i: nat)
    requires i < |outs|
    ensures Translations(response, outs[..i + 1]) ==
      match Block(response, outs[i], OutputEnd)
      case None => Translations(response, outs[..i])
      case Some(t) => Translations(response, outs[..i])[Name(outs[i]) := t]
  {
    assert outs[..i + 1][..i] == outs[..i];
  }

  /**
   * The keys of the strict `translations` are request spellings of languages
   * that were requested and whose header occurs, and each holds that
   * language's output block.
   */
  lemma {:induction false} TranslationsEntries(response: string, outs: seq<Language>)
    ensures forall k :: k in Translations(response, outs) ==> Parse(k).Some?
    ensures forall l :: Name(l) in Translations(response, outs) <==> l in outs && Block(response, l, OutputEnd).Some?
    ensures forall l :: Name(l) in Translations(response, outs) ==>
      Translations(response, outs)[Name(l)] == Block(response, l, OutputEnd).value
    decreases |outs|
  {
    if outs != [] {
      var init, last := outs[..|outs| - 1], outs[|outs| - 1];
      TranslationsEntries(response, init);
      ParseName(last);
      assert outs == init + [last];
      forall l ensures Name(l) in Translations(response, outs) <==> l in outs && Block(response, l, OutputEnd).Some? {
        NamesDistinct(l, last);
      }
      forall l | Name(l) in Translations(response, outs)
        ensures Translations(response, outs)[Name(l)] == Block(response, l, OutputEnd).value
      {
        NamesDistinct(l, last);
      }
    }
  }

  /**
   * The header the prompt asks the generator to write for a language is a
   * strict header of that language, ending right after its colon.
   */
  lemma RequestedHeaderIsRecognised(s: string, i: nat, l: Language)
    requires OccursAt(s, PromptComposer.Header(l), i)
    ensures HeaderEndAt(s, i, l) == Some(i + |PromptComposer.Header(l)|)
  {
    var h := PromptComposer.Header(l);
    if l == Ancient {
      var j := i + |Label(l)|;
      assert s[i..i + |h|] == h;
      assert h == Label(l) + " " + AncientMark;
      OccursSplit(s, Label(l) + " ", AncientMark, i);
      OccursSplit(s, Label(l), " ", i);
      assert s[j] == s[j..j + 1][0] == ' ';
      assert s[j + 1] == s[j + 1..j + 1 + |AncientMark|][0] == AncientMark[0] == '(';
      assert Span(s, j + 1, Space) == j + 1;
      assert Span(s, j, Space) == j + 1;
    } else {
      PlainHeaderMatches(s, i, l);
    }
  }

  /**
   * The entry a requested language has after the fallback: a truthy entry
   * stays; a missing or empty one takes the loose block when the label
   * occurs anywhere in the reply (ignoring case) and is left as it was otherwise.
   */
  function Refill(response: string, l: Language, tr: map<string, string>): Option<string> {
    if Lookup(tr, Name(l)) != "" then Entry(tr, Name(l))
    else match LooseBlock(response, l)
      case None => Entry(tr, Name(l))
      case Some(v) => Some(v)
  }

  /** One step of the fallback loop, for the request entry `l`. */
  function Patch(response: string, l: Language, tr: map<string, string>): map<string, string> {
    if Lookup(tr, Name(l)) != "" then tr
    else match LooseBlock(response, l)
      case None => tr
      case Some(v) => tr[Name(l) := v]
  }

  /** The fallback pass over the requested languages, in request order. */
  function Fallback(response: string, outs: seq<Language>, tr: map<string, string>): map<string, string>
    decreases |outs|
  {
    if outs == [] then tr else Patch(response, outs[|outs| - 1], Fallback(response, outs[..|outs| - 1], tr))
  }

  /** The handler's fallback loop, patching the parsed translations in request order. */
  method ApplyFallback(response: string, outputLanguages: seq<Language>, translations: map<string, string>)
    returns (patched: map<string, string>)
    ensures patched == Fallback(response, outputLanguages, translations)
  {
    patched := translations;
    for i := 0 to |outputLanguages|
      invariant patched == Fallback(response, outputLanguages[..i], translations)
    {
      var lang := outputLanguages[i];
      if Lookup(patched, Name(lang)) == "" {
        var flexMatch := LooseBlock(response, lang);
        if flexMatch.Some? {
          patched := patched[Name(lang) := flexMatch.value];
        }
      }
      FallbackStep(response, outputLanguages, i, translations);
    }
    assert outputLanguages[..|outputLanguages|] == outputLanguages;
  }

  lemma FallbackStep(response: string, outs: seq<Language>, i: nat, tr: map<string, string>)
    requires i < |outs|
    ensures Fallback(response, outs[..i + 1], tr) == Patch(response, outs[i], Fallback(response, outs[..i], tr))
  {
    assert outs[..i + 1][..i] == outs[..i];
  }

  /** After a patch for `l`, `l`'s entry is its refill, and a second patch for `l` changes nothing. */
  lemma PatchSettles(response: string, l: Language, tr: map<string, string>)
    ensures Entry(Patch(response, l, tr), Name(l)) == Refill(response, l, tr)
    ensures Refill(response, l, Patch(response, l, tr)) == Refill(response, l, tr)
    ensures Patch(response, l, Patch(response, l, tr)) == Patch(response, l, tr)
  {
  }

  /**
   * What the fallback pass leaves: every requested language holds its
   * refill of the parsed entry, and every other key is exactly as parsed.
   */
  lemma {:induction false} FallbackEntries(response: string, outs: seq<Language>, tr: map<string, string>)
    ensures forall l :: l in outs ==> Entry(Fallback(response, outs, tr), Name(l)) == Refill(response, l, tr)
    ensures forall l :: l !in outs ==> Entry(Fallback(response, outs, tr), Name(l)) == Entry(tr, Name(l))
    ensures forall k :: Parse(k).None? ==> Entry(Fallback(response, outs, tr), k) == Entry(tr, k)
    decreases |outs|
  {
    forall l | l in outs
      ensures Entry(Fallback(response, outs, tr), Name(l)) == Refill(response, l, tr)
    {
      FallbackEntryOf(response, outs, tr, l);
    }
    forall l | l !in outs
      ensures Entry(Fallback(response, outs, tr), Name(l)) == Entry(tr, Name(l))
    {
      FallbackEntryOf(response, outs, tr, l);
    }
    forall k | Parse(k).None?
      ensures Entry(Fallback(response, outs, tr), k) == Entry(tr, k)
    {
      FallbackOtherKey(response, outs, tr, k);
    }
  }

  /** The entry the fallback pass leaves for one register. */
  lemma {:induction false} FallbackEntryOf(response: string, outs: seq<Language>, tr: map<string, string>, l: Language)
    ensures Entry(Fallback(response, outs, tr), Name(l)) == if l in outs then Refill(response, l, tr) else Entry(tr, Name(l))
    decreases |outs|
  {
    if outs != [] {
      var init, last := outs[..|outs| - 1], outs[|outs| - 1];
      assert outs == init + [last];
      FallbackEntryOf(response, init, tr, l);
      var before := Fallback(response, init, tr);
      if l == last {
        PatchSettles(response, l, before);
        if l in init {
          PatchSettles(response, l, tr);
          RefillOfEntry(response, l, before, Patch(response, l, tr));
        } else {
          RefillOfEntry(response, l, before, tr);
        }
      } else {
        NamesDistinct(l, last);
        PatchElsewhere(response, last, before, Name(l));
      }
    }
  }

  /** The fallback pass leaves every key that is no register's spelling alone. */
  lemma {:induction false} FallbackOtherKey(response: string, outs: seq<Language>, tr: map<string, string>, k: string)
    requires Parse(k).None?
    ensures Entry(Fallback(response, outs, tr), k) == Entry(tr, k)
    decreases |outs|
  {
    if outs != [] {
      var init, last := outs[..|outs| - 1], outs[|outs| - 1];
      FallbackOtherKey(response, init, tr, k);
      ParseName(last);
      PatchElsewhere(response, last, Fallback(response, init, tr), k);
    }
  }

  /** A refill depends on the register's own entry only. */
  lemma RefillOfEntry(response: string, l: Language, a: map<string, string>, b: map<string, string>)
    requires Entry(a, Name(l)) == Entry(b, Name(l))
    ensures Refill(response, l, a) == Refill(response, l, b)
  {
    assert Lookup(a, Name(l)) == Lookup(b, Name(l));
  }

  /** A patch for `l` changes no other key. */
  lemma PatchElsewhere(response: string, l: Language, tr: map<string, string>, k: string)
    requires k != Name(l)
    ensures Entry(Patch(response, l, tr), k) == Entry(tr, k)
  {
  }

  lemma NamesDistinct(a: Language, b: Language)
    ensures a != b ==> Name(a) != Name(b)
  {
  }

  /** Running the fallback pass a second time changes nothing. */
  lemma FallbackIdempotent(response: string, outs: seq<Language>, tr: map<string, string>)
    ensures Fallback(response, outs, Fallback(response, outs, tr)) == Fallback(response, outs, tr)
  {
    var once := Fallback(response, outs, tr);
    var twice := Fallback(response, outs, once);
    FallbackEntries(response, outs, tr);
    FallbackEntries(response, outs, once);
    forall k | k in once || k in twice
      ensures Entry(twice, k) == Entry(once, k)
    {
      match Parse(k)
      case None =>
      case Some(l) =>
        if l in outs {
          assert Refill(response, l, once) == Refill(response, l, tr);
        }
    }
    assert forall k :: k in once <==> k in twice;
    MapsEqual(once, twice);
  }

  lemma MapsEqual(a: map<string, string>, b: map<string, string>)
    requires forall k :: Entry(a, k) == Entry(b, k)
    ensures a == b
  {
    assert a.Keys == b.Keys by {
      forall k ensures k in a <==> k in b { assert Entry(a, k).Some? == Entry(b, k).Some?; }
    }
    forall k | k in a ensures a[k] == b[k] { assert Entry(a, k) == Entry(b, k); }
  }

  /** A requested language that the strict parse found with a non-empty block keeps that block. */
  lemma FallbackKeepsStrictBlocks(response: string, outs: seq<Language>, l: Language, p: Parsed)
    requires Name(l) in p.translations && p.translations[Name(l)] != ""
    ensures Entry(Fallback(response, outs, p.translations), Name(l)) == Some(p.translations[Name(l)])
  {
    FallbackEntries(response, outs, p.translations);
  }
}
