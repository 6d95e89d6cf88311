/**
 * The language registry: the three registers a request may name
 * (`ancient`, `modern`, `english`), their upper-cased labels used as
 * section headers, and the descriptions interpolated into the prompt.
 */
module Languages {
  import opened Wrappers
  import opened Text

  datatype Language = Ancient | Modern | English

  /** The spelling used in requests (`inputLanguage`, `outputLanguages`, the keys of `translations`). */
  function Name(l: Language): string {
    match l
    case Ancient => "ancient"
    case Modern => "modern"
    case English => "english"
  }

  /** Registry lookup of a request string: `None` for anything outside `ancient|modern|english`. */
  function Parse(s: string): (r: Option<Language>)
    ensures r.Some? ==> Name(r.value) == s
    ensures r.None? ==> forall l :: Name(l) != s
  {
    if s == "ancient" then Some(Ancient)
    else if s == "modern" then Some(Modern)
    else if s == "english" then Some(English)
    else None
  }

  function AsciiUpper(c: char): char {
    if 'a' <= c <= 'z' then (c as int - 32) as char else c
  }

  /** `lang.toUpperCase()`: the section header label of a register. */
  function Label(l: Language): (r: string)
    ensures |r| == |Name(l)|
    ensures forall k :: 0 <= k < |r| ==> r[k] == AsciiUpper(Name(l)[k]) && IsUpper(r[k])
  {
    match l
    case Ancient => "ANCIENT"
    case Modern => "MODERN"
    case English => "ENGLISH"
  }

  /** `languageDescriptions[lang]`. */
  function Description(l: Language): string {
    match l
    case Ancient => "Classical/Ancient Chinese"
    case Modern => "Modern Simplified Chinese"
    case English => "English"
  }

  lemma ParseName(l: Language)
    ensures Parse(Name(l)) == Some(l)
  {
  }
}
