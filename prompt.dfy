/**
 * The prompt composer: the instruction text sent to the generator for a
 * translation request, and the system preamble chosen by input language.
 */
module PromptComposer {
  import opened Text
  import opened Languages

  /** The header that introduces a language's block: `ANCIENT (文言文):`, `MODERN:`, `ENGLISH:`. */
  function Header(l: Language): (r: string)
    ensures |Label(l)| < |r| && r[..|Label(l)|] == Label(l) && r[|r| - 1] == ':'
    ensures l == Ancient <==> |r| == |Label(l)| + 7
    ensures l == Ancient ==> r[|Label(l)|..] == " (文言文):"
    ensures l != Ancient ==> r == Label(l) + ":"
  {
    match l
    case Ancient => "ANCIENT (文言文):"
    case Modern => "MODERN:"
    case English => "ENGLISH:"
  }

  const IntroOpening: string := "You are an expert translator. Translate the following "
  /** The rules paragraph, line by line (the first entry closes the opening sentence). */
  const RuleLines: seq<string> := [
    " text.\n\nIMPORTANT RULES:\n",
    "1. Split the text into logical sentences or phrases (use punctuation as guide)\n",
    "2. Mark each sentence with XML tags: <s1>, <s2>, <s3>, etc.\n",
    "3. Maintain the SAME sentence numbers across all versions\n",
    "4. Translate with full context awareness - consider the whole text's meaning\n",
    "5. For Modern Chinese, use simplified characters\n",
    "6. For Ancient/Classical Chinese, use traditional characters and classical grammar (文言文)\n",
    "7. Preserve the meaning and style appropriate to each target language\n\n",
    "Your output must be EXACTLY in this format:\n\n"]

  /** Lines joined in order. */
  function Joined(lines: seq<string>): string
    decreases |lines|
  {
    if lines == [] then "" else Joined(lines[..|lines| - 1]) + lines[|lines| - 1]
  }

  const Rules: string := Joined(RuleLines)
  const InputExampleOpening: string := "\n<s1>first sentence in original "
  const InputExampleClosing: string := "</s1><s2>second sentence</s2>...\n"

  /** The opening of every prompt: role, the seven rules and the example block of the input language. */
  function Intro(input: Language): string {
    IntroOpening + Description(input) + Rules +
    Header(input) + InputExampleOpening + Description(input) + InputExampleClosing
  }

  /** The example block of the input language opens with its header, right after the rules. */
  lemma IntroShowsInputHeader(input: Language)
    ensures OccursAt(Intro(input), Header(input) + InputExampleOpening, |IntroOpening + Description(input) + Rules|)
  {
    ShowsFourthAndFifth(IntroOpening, Description(input), Rules, Header(input), InputExampleOpening,
      Description(input) + InputExampleClosing);
  }

  lemma ShowsFourthAndFifth(a: string, b: string, c: string, d: string, e: string, f: string)
    ensures OccursAt(a + b + c + d + e + f, d + e, |a + b + c|)
  {
    var x := a + b + c;
    AppendAssoc(x, d, e);
    AppendAssoc(x, d + e, f);
    AppendParts(x + (d + e), f);
    AppendParts(x, d + e);
  }

  const AncientExample: string :=
    "<s1>first sentence in Classical/Ancient Chinese with particles like 之乎者也</s1><s2>second sentence in Classical Chinese</s2>..."
  const ModernExample: string :=
    "<s1>first sentence in Modern Chinese</s1><s2>second sentence in Modern Chinese</s2>..."
  const EnglishExample: string :=
    "<s1>first sentence in English</s1><s2>second sentence in English</s2>..."

  /** The example section of an output language (one template literal per language). */
  function LanguageSection(l: Language): string {
    match l
    case Ancient => AncientSection
    case Modern => ModernSection
    case English => EnglishSection
  }

  const AncientSection: string := "\n" + "ANCIENT (文言文):" + "\n" + AncientExample
  const ModernSection: string := "\n" + "MODERN:" + "\n" + ModernExample
  const EnglishSection: string := "\n" + "ENGLISH:" + "\n" + EnglishExample

  /**
   * Every example section opens on a new line with the language's header on
   * a line of its own: the header the response aligner looks for.
   */
  lemma SectionOpensWithHeader(l: Language)
    ensures var h := "\n" + Header(l) + "\n";
      |h| < |LanguageSection(l)| && LanguageSection(l)[..|h|] == h
  {
    var example := match l case Ancient => AncientExample case Modern => ModernExample case English => EnglishExample;
    AppendParts("\n" + Header(l) + "\n", example);
  }

  /** The example section one entry of `outputLanguages` adds: nothing for an unrecognised entry. */
  function Section(lang: string): (r: string)
    ensures r == [] <==> Parse(lang).None?
  {
    match Parse(lang)
    case None => ""
    case Some(l) => LanguageSection(l)
  }

  /** A recognised entry adds the example section of the register it names, opening with that register's header line. */
  lemma SectionOfEntry(lang: string)
    requires Parse(lang).Some?
    ensures var h := "\n" + Header(Parse(lang).value) + "\n";
      |h| < |Section(lang)| && Section(lang)[..|h|] == h
  {
    SectionOpensWithHeader(Parse(lang).value);
  }

  /** The sections of `outs`, in order. */
  function Sections(outs: seq<string>): string
    decreases |outs|
  {
    if outs == [] then "" else Sections(outs[..|outs| - 1]) + Section(outs[|outs| - 1])
  }

  const TextMarker: string := "\n\nText to translate:\n"

  /** The whole instruction for a request. */
  function TranslationPrompt(text: string, input: Language, outs: seq<string>): string {
    Intro(input) + Sections(outs) + TextMarker + text
  }

  /**
   * `createTranslationPrompt`: starts from the introduction and appends one
   * example section per entry of `outputLanguages`, then the source text.
   */
  method CreateTranslationPrompt(text: string, inputLanguage: Language, outputLanguages: seq<string>)
    returns (prompt: string)
    ensures prompt == TranslationPrompt(text, inputLanguage, outputLanguages)
  {
    ghost var intro := Intro(inputLanguage);
    prompt := Intro(inputLanguage);
    for i := 0 to |outputLanguages|
      invariant prompt == intro + Sections(outputLanguages[..i])
    {
      var lang := outputLanguages[i];
      SectionsStep(outputLanguages, i);
      if lang == "ancient" {
        prompt := prompt + LanguageSection(Ancient);
      } else if lang == "modern" {
        prompt := prompt + LanguageSection(Modern);
      } else if lang == "english" {
        prompt := prompt + LanguageSection(English);
      }
    }
    assert outputLanguages[..|outputLanguages|] == outputLanguages;
    prompt := prompt + TextMarker + text;
  }

  /** One more entry appends its section, with the earlier text left in place. */
  lemma SectionsStep(outs: seq<string>, i: nat)
    requires i < |outs|
    ensures forall head: string :: head + Sections(outs[..i + 1]) == (head + Sections(outs[..i])) + Section(outs[i])
  {
    assert outs[..i + 1][..i] == outs[..i];
    forall head: string ensures head + Sections(outs[..i + 1]) == (head + Sections(outs[..i])) + Section(outs[i]) {
      AppendAssoc(head, Sections(outs[..i]), Section(outs[i]));
    }
  }

  /** The entries of `outs` the registry recognises, in their original order. */
  function Recognised(outs: seq<string>): (r: seq<string>)
    ensures |r| <= |outs|
    ensures forall k :: 0 <= k < |r| ==> Parse(r[k]).Some?
    decreases |outs|
  {
    if outs == [] then []
    else
      var last := outs[|outs| - 1];
      Recognised(outs[..|outs| - 1]) + (if Parse(last).Some? then [last] else [])
  }

  /** Sections of consecutive parts of the request concatenate in request order. */
  lemma {:induction false} SectionsAppend(a: seq<string>, b: seq<string>)
    ensures Sections(a + b) == Sections(a) + Sections(b)
    decreases |b|
  {
    if b == [] {
      assert a + b == a;
    } else {
      var b', last := b[..|b| - 1], b[|b| - 1];
      assert (a + b)[..|a + b| - 1] == a + b';
      assert (a + b)[|a + b| - 1] == last;
      SectionsAppend(a, b');
      AppendAssoc(Sections(a), Sections(b'), Section(last));
    }
  }

  /** Unrecognised entries of `outputLanguages` contribute nothing to the prompt. */
  lemma {:induction false} SectionsOfRecognisedOnly(outs: seq<string>)
    ensures Sections(outs) == Sections(Recognised(outs))
    decreases |outs|
  {
    if outs != [] {
      var init, last := outs[..|outs| - 1], outs[|outs| - 1];
      SectionsOfRecognisedOnly(init);
      if Parse(last).Some? {
        assert Recognised(outs) == Recognised(init) + [last];
        SectionsAppend(Recognised(init), [last]);
        assert [last][..0] == [];
      } else {
        assert Recognised(outs) == Recognised(init);
        assert Section(last) == [];
        assert Sections(outs) == Sections(init) + [];
      }
    }
  }

  /**
   * The prompt is the introduction of the input language, then the example
   * sections of the recognised output languages in request order, then the
   * marker line, then the source text verbatim (line breaks included).
   */
  lemma PromptLayout(text: string, input: Language, outs: seq<string>)
    ensures var p := TranslationPrompt(text, input, outs);
      var n := |p| - |text|;
      n >= |TextMarker| && p[n..] == text && p[n - |TextMarker|..n] == TextMarker &&
      p[..n - |TextMarker|] == Intro(input) + Sections(Recognised(outs))
  {
    LayoutParts(Intro(input) + Sections(outs), TextMarker, text);
    SectionsOfRecognisedOnly(outs);
  }

  const ToAncient: string := "When translating TO Ancient Chinese"
  const ClassicalGrammar: string := "use authentic classical grammar"

  /** In `a + b + c`, the last `|c|` characters are `c`, the `|b|` before them `b`, and the rest `a`. */
  lemma LayoutParts(a: string, b: string, c: string)
    ensures var p := a + b + c;
      var n := |p| - |c|;
      n >= |b| && p[n..] == c && p[n - |b|..n] == b && p[..n - |b|] == a
  {
    var p := a + b + c;
    AppendParts(a + b, c);
    AppendParts(a, b);
    assert p[|a|..|a| + |b|] == (a + b)[|a|..];
  }

  /**
   * The system preamble: one of three fixed texts by input language (the
   * third also covers any language other than `ancient` and `modern`); each
   * asks for authentic classical grammar when translating into Ancient Chinese.
   */
  function SystemPrompt(input: Language): (r: string)
    ensures Includes(r, ToAncient) && Includes(r, ClassicalGrammar)
  {
    var (opening, middle, closing) :=
      match input
      case Ancient => (
        "You are an expert in Classical Chinese (文言文) literature and translation. " +
        "Provide accurate translations that preserve cultural and historical context. ",
        ", ",
        " with particles like 之, 乎, 者, 也, 矣, 焉, 哉, 而, 於, 為, etc.")
      case Modern => (
        "You are an expert translator specializing in Modern Chinese. " +
        "Provide natural, fluent translations. ",
        " (文言文), ",
        " and vocabulary with appropriate particles.")
      case English => (
        "You are an expert translator from English. " +
        "Provide accurate, culturally appropriate translations. ",
        " (文言文), ",
        " with particles like 之, 乎, 者, 也, etc.");
    PreambleIncludes(opening, ToAncient, middle, ClassicalGrammar, closing);
    opening + ToAncient + middle + ClassicalGrammar + closing
  }

  /** A preamble laid out as opening, `x`, middle, `y`, closing contains both `x` and `y`. */
  lemma PreambleIncludes(opening: string, x: string, middle: string, y: string, closing: string)
    ensures var r := opening + x + middle + y + closing;
      Includes(r, x) && Includes(r, y)
  {
    var r := opening + x + middle + y + closing;
    var i, j := |opening|, |opening + x + middle|;
    assert r == (opening + x) + (middle + y + closing);
    AppendParts(opening, x);
    assert r[i..i + |x|] == (opening + x)[i..];
    IncludesAt(r, x, i);
    assert r == (opening + x + middle + y) + closing;
    AppendParts(opening + x + middle, y);
    assert r[j..j + |y|] == (opening + x + middle + y)[j..];
    IncludesAt(r, y, j);
  }
}
