/** `get_article_generation_prompt`: the (system, user) prompt pair for article generation.
    The fixed template text is kept as fixed constants; the variable parts are modelled. */
module ArticlePrompt {
  import opened Text
  import opened Backend

  const SystemPrompt: string :=
    "You are a professional English teacher who excels at creating appropriate reading "
    + "materials for beginners. You must return valid JSON format only."

  /** How many words of the bank are shown verbatim. */
  const ShownWords: nat := 50

  const Opening: string :=
    "Please generate an English reading article and 5 test questions based on the following "
    + "information:\n\nUser Information:\n- Age: "
  const AfterAge: string := " years old\n- Lexile Level: "
  const AfterLexile: string := " (grammar and sentence complexity indicator)\n\nWord Bank: "
  /** Stands for the fixed requirements and JSON layout that close the template. */
  const Closing: string := "\n\nRequirements:\n"

  function Min(a: nat, b: nat): nat {
    if a < b then a else b
  }

  /** The note appended when words are left out of the display. */
  function HiddenNote(hidden: nat): string {
    " (and " + IntToString(hidden) + " more words)"
  }

  /** The word-bank display: the first words joined by ", ", plus a count of the rest. */
  function WordsDisplay(words: seq<string>): string {
    Join(words[..Min(ShownWords, |words|)], ", ")
    + (if |words| > ShownWords then HiddenNote(|words| - ShownWords) else "")
  }

  /** The pieces of the user prompt, variable parts at positions 1, 3 and 5. */
  function UserParts(words: seq<string>, age: int, lexile: int): seq<string> {
    [Opening, IntToString(age), AfterAge, IntToString(lexile), AfterLexile, WordsDisplay(words), Closing]
  }

  /** The prompt pair for a word bank, an age and a Lexile level. */
  function Build(words: seq<string>, age: int, lexile: int): (r: PromptPair)
    ensures r.system == SystemPrompt
    ensures IsInfix(IntToString(age), r.user)
    ensures IsInfix(IntToString(lexile), r.user)
    ensures IsInfix(WordsDisplay(words), r.user)
  {
    var parts := UserParts(words, age, lexile);
    ConcatHasEach(parts, 1);
    ConcatHasEach(parts, 3);
    ConcatHasEach(parts, 5);
    PromptPair(SystemPrompt, Concat(parts))
  }

  /** Each of the first fifty words appears verbatim in the display. */
  lemma ShownWordsDisplayed(words: seq<string>, i: nat)
    requires i < |words| && i < ShownWords
    ensures IsInfix(words[i], WordsDisplay(words))
  {
    var shown := words[..Min(ShownWords, |words|)];
    assert shown[i] == words[i];
    JoinHasEach(shown, ", ", i);
    var tail := if |words| > ShownWords then HiddenNote(|words| - ShownWords) else "";
    InfixOfPrefix(Join(shown, ", "), tail);
    InfixTransitive(words[i], Join(shown, ", "), WordsDisplay(words));
  }

  /** Each of the first fifty words appears verbatim in the user prompt. */
  lemma ShownWordsAppear(words: seq<string>, age: int, lexile: int, i: nat)
    requires i < |words| && i < ShownWords
    ensures IsInfix(words[i], Build(words, age, lexile).user)
  {
    ShownWordsDisplayed(words, i);
    var p := Build(words, age, lexile);
    InfixTransitive(words[i], WordsDisplay(words), p.user);
  }

  /** With more than fifty words, the number left out is stated in the user prompt. */
  lemma HiddenWordsCounted(words: seq<string>, age: int, lexile: int)
    requires |words| > ShownWords
    ensures IsInfix(HiddenNote(|words| - ShownWords), Build(words, age, lexile).user)
  {
    var shown := Join(words[..ShownWords], ", ");
    var note := HiddenNote(|words| - ShownWords);
    assert InfixAt(note, shown + note, |shown|);
    InfixTransitive(HiddenNote(|words| - ShownWords), WordsDisplay(words),
                    Build(words, age, lexile).user);
  }

  /** With at most fifty words, all of them are shown and no count note is added. */
  lemma FewWordsAllShown(words: seq<string>)
    requires |words| <= ShownWords
    ensures WordsDisplay(words) == Join(words, ", ")
  {
    assert words[..|words|] == words;
  }

  /** Words past the fiftieth never reach the prompt: two banks that agree on their first
      fifty words and have the same size produce the same prompt pair. */
  lemma OnlyShownWordsMatter(a: seq<string>, b: seq<string>, age: int, lexile: int)
    requires |a| == |b|
    requires a[..Min(ShownWords, |a|)] == b[..Min(ShownWords, |b|)]
    ensures Build(a, age, lexile) == Build(b, age, lexile)
  {
    assert WordsDisplay(a) == WordsDisplay(b);
    assert UserParts(a, age, lexile) == UserParts(b, age, lexile);
  }

  /** The user prompt spelled out piece by piece. */
  lemma UserText(words: seq<string>, age: int, lexile: int)
    ensures Build(words, age, lexile).user
            == Opening + (IntToString(age) + (AfterAge + (IntToString(lexile)
               + (AfterLexile + (WordsDisplay(words) + Closing)))))
  {
    ConcatSeven(Opening, IntToString(age), AfterAge, IntToString(lexile), AfterLexile,
                WordsDisplay(words), Closing);
  }

  /** The template text after each number begins with a blank. */
  lemma BlankAfterNumbers()
    ensures |AfterAge| > 0 && AfterAge[0] == ' '
    ensures |AfterLexile| > 0 && AfterLexile[0] == ' '
  {
    var head := " (grammar and sentence complexity indicator)";
    assert AfterLexile == head + "\n\nWord Bank: ";
    assert AfterLexile[0] == head[0];
  }

  /** Nothing is lost in the prompt: the age, the Lexile level and the word display can all
      be read back from it, so different inputs that the display tells apart give different
      prompts. */
  lemma BuildInjective(w1: seq<string>, a1: int, l1: int, w2: seq<string>, a2: int, l2: int)
    requires Build(w1, a1, l1) == Build(w2, a2, l2)
    ensures a1 == a2 && l1 == l2 && WordsDisplay(w1) == WordsDisplay(w2)
  {
    BlankAfterNumbers();
    UserText(w1, a1, l1);
    UserText(w2, a2, l2);
    var tail1 := AfterLexile + (WordsDisplay(w1) + Closing);
    var tail2 := AfterLexile + (WordsDisplay(w2) + Closing);
    var mid1 := AfterAge + (IntToString(l1) + tail1);
    var mid2 := AfterAge + (IntToString(l2) + tail2);
    assert mid1[0] == AfterAge[0] && mid2[0] == AfterAge[0];
    NumberThenBlank(Opening, a1, mid1, a2, mid2);
    assert tail1[0] == AfterLexile[0] && tail2[0] == AfterLexile[0];
    NumberThenBlank(AfterAge, l1, tail1, l2, tail2);
    PrefixCancel(AfterLexile, WordsDisplay(w1) + Closing, WordsDisplay(w2) + Closing);
    SuffixCancel(WordsDisplay(w1), WordsDisplay(w2), Closing);
  }

  /** The system prompt is the same whatever the inputs. */
  lemma SystemPromptFixed(w1: seq<string>, a1: int, l1: int, w2: seq<string>, a2: int, l2: int)
    ensures Build(w1, a1, l1).system == Build(w2, a2, l2).system
  {
  }
}
