/** The 30 languages offered for selection, their display names and the combobox entries. */
module Languages {
  import opened PyStr

  /** Language code to display name; any other code is still usable, it is only shown as "Unknown". */
  const Names: map<string, string> := map[
    "af" := "Afrikaans", "ar" := "Arabic", "bn" := "Bengali", "zh-cn" := "Chinese (Simplified)",
    "nl" := "Dutch", "en" := "English", "fr" := "French", "de" := "German", "el" := "Greek",
    "hi" := "Hindi", "id" := "Indonesian", "it" := "Italian", "ja" := "Japanese", "ko" := "Korean",
    "ms" := "Malay", "ne" := "Nepali", "fa" := "Persian", "pl" := "Polish", "pt" := "Portuguese",
    "pa" := "Punjabi", "ro" := "Romanian", "ru" := "Russian", "es" := "Spanish", "sw" := "Swahili",
    "sv" := "Swedish", "tl" := "Tagalog", "ta" := "Tamil", "th" := "Thai", "tr" := "Turkish",
    "ur" := "Urdu"
  ]

  /** `LANGUAGES.get(code, "Unknown")`. */
  function LanguageName(code: string): (r: string)
    ensures code in Names ==> r == Names[code]
    ensures code !in Names ==> r == "Unknown"
  {
    if code in Names then Names[code] else "Unknown"
  }

  /** No selectable language is called "Unknown", so that name marks exactly the unlisted codes. */
  lemma UnknownExactlyForUnlisted(code: string)
    ensures LanguageName(code) == "Unknown" <==> code !in Names
  {
    if code in Names {
      assert Names[code] != "Unknown";
    }
  }

  /** The combobox entry for a code: "code: Name". */
  function Entry(code: string): string
    requires code in Names
  {
    code + ": " + Names[code]
  }

  /** The target language code read back from the combobox text: `split(":")[0].strip()`. */
  function TargetCode(selection: string): (r: string)
    ensures |r| <= |selection|
    ensures ':' !in r
  {
    var head := BeforeFirst(selection, ':');
    var r := Strip(head);
    assert forall c :: c in r ==> c in head;
    r
  }

  /** A code that survives the round trip through its combobox entry. */
  ghost predicate PlainCode(code: string) {
    code != [] && ':' !in code && !IsSpace(code[0]) && !IsSpace(code[|code| - 1])
  }

  lemma {:induction false} BeforeFirstOfJoined(a: string, sep: char, b: string)
    requires sep !in a
    ensures BeforeFirst(a + [sep] + b, sep) == a
  {
    if a != [] {
      assert (a + [sep] + b)[1..] == a[1..] + [sep] + b;
      BeforeFirstOfJoined(a[1..], sep, b);
    }
  }

  lemma TargetCodeOfJoined(code: string, rest: string)
    requires PlainCode(code)
    ensures TargetCode(code + ":" + rest) == code
  {
    BeforeFirstOfJoined(code, ':', rest);
    StripKeepsUnpadded(code);
  }

  /** The 30 codes, as a set. */
  ghost const Codes: set<string> := {
    "af", "ar", "bn", "zh-cn", "nl", "en", "fr", "de", "el", "hi", "id", "it", "ja", "ko", "ms",
    "ne", "fa", "pl", "pt", "pa", "ro", "ru", "es", "sw", "sv", "tl", "ta", "th", "tr", "ur"
  }

  /** The codes the table lists. */
  lemma NamesHasCodes()
    ensures Names.Keys == Codes
  {
  }

  /** Each code is non-empty, has no colon and no surrounding white space. */
  lemma CodesPlain()
    ensures forall code :: code in Codes ==> PlainCode(code)
  {
  }

  /** So every listed code is plain. */
  lemma AllCodesPlain()
    ensures forall code :: code in Names ==> PlainCode(code)
  {
    NamesHasCodes();
    CodesPlain();
  }

  /** An entry "code: name" built from a plain code gives that code back. */
  lemma JoinedEntryRoundTrip(code: string, name: string)
    requires PlainCode(code)
    ensures TargetCode(code + ": " + name) == code
  {
    assert code + ": " + name == code + ":" + (" " + name);
    TargetCodeOfJoined(code, " " + name);
  }

  /** Every combobox entry gives back its own code, and so its own display name. */
  lemma EntryRoundTrip(code: string)
    requires code in Names
    ensures TargetCode(Entry(code)) == code
    ensures LanguageName(TargetCode(Entry(code))) == Names[code]
  {
    AllCodesPlain();
    JoinedEntryRoundTrip(code, Names[code]);
  }

  /** The initial selection "hi: Hindi" targets Hindi. */
  lemma DefaultSelectionIsHindi()
    ensures TargetCode("hi: Hindi") == "hi"
  {
    assert "hi: Hindi" == "hi" + ": " + "Hindi";
    JoinedEntryRoundTrip("hi", "Hindi");
  }
}
