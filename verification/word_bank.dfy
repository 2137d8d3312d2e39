/** `core/word_bank.py`: a user's word list kept as a text file, one word per line. A file that
    does not exist is `None`; the text a save writes is returned instead of written. */
module WordBank {
  import opened Wrappers
  import opened Text
  import opened Sequences

  /** The case-folded form two words are compared by. */
  function Key(w: string): string {
    Lower(w)
  }

  /** The keys of a list of words (the `seen` / `existing_set` sets of the source). */
  function Keys(ws: seq<string>): set<string> {
    if |ws| == 0 then {} else Keys(ws[..|ws| - 1]) + {Key(ws[|ws| - 1])}
  }

  lemma KeysAppend(ws: seq<string>, w: string)
    ensures Keys(ws + [w]) == Keys(ws) + {Key(w)}
  {
    assert (ws + [w])[..|ws|] == ws;
  }

  lemma {:induction false} KeyIn(ws: seq<string>, i: nat)
    requires i < |ws|
    ensures Key(ws[i]) in Keys(ws)
  {
    if i < |ws| - 1 {
      KeyIn(ws[..|ws| - 1], i);
    }
  }

  lemma {:induction false} KeyWitness(ws: seq<string>, x: string) returns (i: nat)
    requires x in Keys(ws)
    ensures i < |ws| && Key(ws[i]) == x
  {
    if x != Key(ws[|ws| - 1]) {
      i := KeyWitness(ws[..|ws| - 1], x);
    } else {
      i := |ws| - 1;
    }
  }

  /** A key no word has is not among the keys. */
  lemma {:induction false} KeyAbsent(ws: seq<string>, x: string)
    requires forall m | 0 <= m < |ws| :: Key(ws[m]) != x
    ensures x !in Keys(ws)
  {
    if |ws| > 0 {
      KeyAbsent(ws[..|ws| - 1], x);
    }
  }

  lemma DropLast(ws: seq<string>)
    requires |ws| > 0
    ensures ws == ws[..|ws| - 1] + [ws[|ws| - 1]]
  {
  }

  /** No two words of the list share a key. */
  ghost predicate DistinctKeys(ws: seq<string>) {
    forall i, j | 0 <= i < j < |ws| :: Key(ws[i]) != Key(ws[j])
  }

  /** An entry as `strip()` leaves it when something remains. */
  ghost predicate Tidy(w: string) {
    w != "" && Strip(w) == w
  }

  /** A word as the file holds it: tidy, and on a line of its own. */
  ghost predicate IsStored(w: string) {
    Tidy(w) && !HasLineBreak(w)
  }

  // ---------------------------------------------------------------- the file

  /** What one entry contributes: its strip, or nothing when that is empty. */
  function Cleaned(w: string): seq<string> {
    if Strip(w) == "" then [] else [Strip(w)]
  }

  /** `[w.strip() for w in ws if w.strip()]`. */
  function Clean(ws: seq<string>): seq<string> {
    if |ws| == 0 then [] else Cleaned(ws[0]) + Clean(ws[1..])
  }

  /** Every cleaned entry is tidy. */
  lemma {:induction false} CleanIsTidy(ws: seq<string>)
    ensures forall k | 0 <= k < |Clean(ws)| :: Tidy(Clean(ws)[k])
  {
    if |ws| > 0 {
      CleanIsTidy(ws[1..]);
      StripIdempotent(ws[0]);
    }
  }

  /** Cleaning never introduces a line break. */
  lemma {:induction false} CleanKeepsLineFree(ws: seq<string>)
    requires forall k | 0 <= k < |ws| :: !HasLineBreak(ws[k])
    ensures forall k | 0 <= k < |Clean(ws)| :: !HasLineBreak(Clean(ws)[k])
  {
    if |ws| > 0 {
      CleanKeepsLineFree(ws[1..]);
      StripKeepsNoLineBreak(ws[0]);
    }
  }

  /** Entries that are already tidy are their own clean-up. */
  lemma {:induction false} CleanOfTidy(ws: seq<string>)
    requires forall k | 0 <= k < |ws| :: Tidy(ws[k])
    ensures Clean(ws) == ws
  {
    if |ws| > 0 {
      CleanOfTidy(ws[1..]);
      assert ws == [ws[0]] + ws[1..];
    }
  }

  /** `load_words`: every non-blank line of the file, stripped; no file gives no words. */
  function LoadWords(file: Option<string>): (r: seq<string>)
    ensures file.None? ==> r == []
    ensures forall k | 0 <= k < |r| :: IsStored(r[k])
  {
    match file
    case None => []
    case Some(text) =>
      CleanIsTidy(Lines(text));
      CleanKeepsLineFree(Lines(text));
      Clean(Lines(text))
  }

  /** The text `save_words` writes: each non-blank word stripped and ended by a newline. */
  function SaveWords(ws: seq<string>): string {
    if |ws| == 0 then ""
    else if Strip(ws[0]) == "" then SaveWords(ws[1..])
    else Strip(ws[0]) + "\n" + SaveWords(ws[1..])
  }

  /** Loading what was saved gives back the cleaned list, as long as no word spans a line. */
  lemma {:induction false} SaveLoadRoundTrip(ws: seq<string>)
    requires forall k | 0 <= k < |ws| :: !HasLineBreak(ws[k])
    ensures LoadWords(Some(SaveWords(ws))) == Clean(ws)
  {
    if |ws| == 0 {
      assert Lines("") == [""];
    } else {
      var w := ws[0];
      var rest := ws[1..];
      assert ws == [w] + rest;
      SaveLoadRoundTrip(rest);
      if Strip(w) != "" {
        var tail := SaveWords(rest);
        StripKeepsNoLineBreak(w);
        LinesCons(Strip(w), tail);
        StripIdempotent(w);
        assert Clean([Strip(w)] + Lines(tail)) == Cleaned(Strip(w)) + Clean(Lines(tail));
      }
    }
  }

  /** A list of stored words survives a save and a load unchanged. */
  lemma StoredRoundTrip(ws: seq<string>)
    requires forall k | 0 <= k < |ws| :: IsStored(ws[k])
    ensures LoadWords(Some(SaveWords(ws))) == ws
  {
    SaveLoadRoundTrip(ws);
    CleanOfTidy(ws);
  }

  /** `get_word_count`: the number of words `load_words` returns. */
  function WordCount(file: Option<string>): nat {
    |LoadWords(file)|
  }

  /** The number of entries that are not blank. */
  function NonBlank(ws: seq<string>): nat {
    if |ws| == 0 then 0 else (if Strip(ws[0]) == "" then 0 else 1) + NonBlank(ws[1..])
  }

  lemma {:induction false} CleanCountsNonBlank(ws: seq<string>)
    ensures |Clean(ws)| == NonBlank(ws)
  {
    if |ws| > 0 {
      CleanCountsNonBlank(ws[1..]);
    }
  }

  /** After a save, the count is the number of non-blank words that were saved. */
  lemma SavedWordCount(ws: seq<string>)
    requires forall k | 0 <= k < |ws| :: !HasLineBreak(ws[k])
    ensures WordCount(Some(SaveWords(ws))) == NonBlank(ws)
  {
    SaveLoadRoundTrip(ws);
    CleanCountsNonBlank(ws);
  }

  // ---------------------------------------------------------------- deduplication

  /** `idx` picks `r` out of `ws` in order, and each pick is the first word of `ws` with its
      key: `r` is the subsequence of first occurrences. */
  ghost predicate FirstOccurrences(ws: seq<string>, r: seq<string>, idx: seq<nat>) {
    && |idx| == |r|
    && (forall a, b | 0 <= a < b < |idx| :: idx[a] < idx[b])
    && (forall a | 0 <= a < |idx| ::
          idx[a] < |ws| && r[a] == ws[idx[a]] && forall m | 0 <= m < idx[a] :: Key(ws[m]) != Key(r[a]))
  }

  /** `r` is a subsequence of `ws` made of first occurrences of keys. */
  ghost predicate KeepsFirstInOrder(ws: seq<string>, r: seq<string>) {
    exists idx :: FirstOccurrences(ws, r, idx)
  }

  /** The list with every word whose key already occurred earlier dropped. */
  function Dedupe(ws: seq<string>): (r: seq<string>)
    ensures |r| <= |ws|
    ensures forall x | x in r :: x in ws
    ensures Keys(r) == Keys(ws)
    ensures DistinctKeys(r)
    ensures KeepsFirstInOrder(ws, r)
  {
    if |ws| == 0 then
      assert FirstOccurrences(ws, [], []);
      []
    else
      var prior := ws[..|ws| - 1];
      var w := ws[|ws| - 1];
      var r0 := Dedupe(prior);
      assert forall x | x in prior :: x in ws;
      DropLast(ws);
      DedupeStepInOrder(prior, w, r0);
      if Key(w) in Keys(prior) then r0
      else
        KeysAppend(r0, w);
        AppendFreshDistinct(r0, w);
        r0 + [w]
  }

  /** One step of `Dedupe` keeps the result the in-order first occurrences. */
  lemma DedupeStepInOrder(prior: seq<string>, w: string, r0: seq<string>)
    requires KeepsFirstInOrder(prior, r0)
    ensures Key(w) in Keys(prior) ==> KeepsFirstInOrder(prior + [w], r0)
    ensures Key(w) !in Keys(prior) ==> KeepsFirstInOrder(prior + [w], r0 + [w])
  {
    var idx0 :| FirstOccurrences(prior, r0, idx0);
    if Key(w) in Keys(prior) {
      FirstOccurrencesExtend(prior, w, r0, idx0);
    } else {
      FirstOccurrencesAppend(prior, w, r0, idx0);
    }
  }

  /** A word whose key is new keeps the keys distinct. */
  lemma AppendFreshDistinct(r0: seq<string>, w: string)
    requires DistinctKeys(r0) && Key(w) !in Keys(r0)
    ensures DistinctKeys(r0 + [w])
  {
    var r := r0 + [w];
    forall i, j | 0 <= i < j < |r|
      ensures Key(r[i]) != Key(r[j])
    {
      assert r[i] == r0[i];
      if j < |r0| {
        assert r[j] == r0[j];
      } else {
        KeyIn(r0, i);
      }
    }
  }

  /** The first occurrences of `prior` are still first occurrences after a word is appended. */
  lemma FirstOccurrencesExtend(prior: seq<string>, w: string, r0: seq<string>, idx: seq<nat>)
    requires FirstOccurrences(prior, r0, idx)
    ensures FirstOccurrences(prior + [w], r0, idx)
  {
    var ws := prior + [w];
    forall a | 0 <= a < |idx|
      ensures idx[a] < |ws| && r0[a] == ws[idx[a]]
              && forall m | 0 <= m < idx[a] :: Key(ws[m]) != Key(r0[a])
    {
      assert forall m | 0 <= m < idx[a] :: ws[m] == prior[m];
    }
  }

  /** A word with a new key is its own first occurrence, and comes after the others. */
  lemma FirstOccurrencesAppend(prior: seq<string>, w: string, r0: seq<string>, idx: seq<nat>)
    requires FirstOccurrences(prior, r0, idx)
    requires Key(w) !in Keys(prior)
    ensures FirstOccurrences(prior + [w], r0 + [w], idx + [|prior|])
  {
    var ws, r, ix := prior + [w], r0 + [w], idx + [|prior|];
    FirstOccurrencesExtend(prior, w, r0, idx);
    FreshFirst(prior, w);
    forall a, b | 0 <= a < b < |ix|
      ensures ix[a] < ix[b]
    {
      assert ix[a] == idx[a];
      if b < |idx| {
        assert ix[b] == idx[b];
      }
    }
    forall a | 0 <= a < |ix|
      ensures ix[a] < |ws| && r[a] == ws[ix[a]]
              && forall m | 0 <= m < ix[a] :: Key(ws[m]) != Key(r[a])
    {
      if a < |idx| {
        assert ix[a] == idx[a] && r[a] == r0[a];
      } else {
        assert ix[a] == |prior| && r[a] == w;
      }
    }
  }

  /** A word with a key new to `prior` shares it with no earlier word. */
  lemma FreshFirst(prior: seq<string>, w: string)
    requires Key(w) !in Keys(prior)
    ensures forall m | 0 <= m < |prior| :: Key((prior + [w])[m]) != Key(w)
  {
    forall m | 0 <= m < |prior|
      ensures Key((prior + [w])[m]) != Key(w)
    {
      assert (prior + [w])[m] == prior[m];
      KeyIn(prior, m);
    }
  }

  /** The example of deduplicating a list: later spellings of a word are dropped. */
  lemma DedupeExample()
    ensures Dedupe(["Cat", "cat", "dog"]) == ["Cat", "dog"]
  {
    ExampleKeys();
    LaterSpellingDropped("Cat", "cat", "dog");
  }

  /** Of two spellings of one word the first is kept; a different word after them stays. */
  lemma LaterSpellingDropped(a: string, b: string, c: string)
    requires Key(a) == Key(b) && Key(c) != Key(a)
    ensures Dedupe([a, b, c]) == [a, c]
  {
    SecondSpellingDropped(a, b);
    KeysOfPair(a, b);
    DedupeAppend([a, b], c);
    assert [a, b] + [c] == [a, b, c];
  }

  /** Of two spellings of one word only the first is kept. */
  lemma SecondSpellingDropped(a: string, b: string)
    requires Key(a) == Key(b)
    ensures Dedupe([a, b]) == [a]
  {
    DedupeAppend([], a);
    assert [] + [a] == [a];
    KeysOfPair(a, b);
    DedupeAppend([a], b);
    assert [a] + [b] == [a, b];
  }

  lemma KeysOfPair(a: string, b: string)
    ensures Keys([a]) == {Key(a)} && Keys([a, b]) == {Key(a), Key(b)}
  {
    KeysAppend([], a);
    assert [] + [a] == [a];
    KeysAppend([a], b);
    assert [a] + [b] == [a, b];
  }

  lemma ExampleKeys()
    ensures Key("Cat") == "cat" && Key("cat") == "cat" && Key("dog") == "dog"
  {
    assert Lower("Cat") == [LowerChar('C')] + Lower("at");
  }

  /** A word survives when no earlier word has its key: the first spelling is the one kept. */
  lemma {:induction false} DedupeKeepsFirst(ws: seq<string>, k: nat)
    requires k < |ws|
    requires forall m | 0 <= m < k :: Key(ws[m]) != Key(ws[k])
    ensures ws[k] in Dedupe(ws)
  {
    var prior := ws[..|ws| - 1];
    if k < |ws| - 1 {
      DedupeKeepsFirst(prior, k);
    } else if Key(ws[k]) in Keys(prior) {
      var m := KeyWitness(prior, Key(ws[k]));
      assert false;
    }
  }

  /** A list whose keys are already distinct is left as it is. */
  lemma {:induction false} DedupeOfDistinct(ws: seq<string>)
    requires DistinctKeys(ws)
    ensures Dedupe(ws) == ws
  {
    if |ws| > 0 {
      var prior := ws[..|ws| - 1];
      var w := ws[|ws| - 1];
      DistinctSplit(ws);
      DedupeOfDistinct(prior);
      DropLast(ws);
      DedupeAppend(prior, w);
    }
  }

  /** Without its last word a list with distinct keys keeps them distinct, and that word's
      key is not among the others. */
  lemma DistinctSplit(ws: seq<string>)
    requires |ws| > 0 && DistinctKeys(ws)
    ensures DistinctKeys(ws[..|ws| - 1])
    ensures Key(ws[|ws| - 1]) !in Keys(ws[..|ws| - 1])
  {
    var prior := ws[..|ws| - 1];
    forall i, j | 0 <= i < j < |prior|
      ensures Key(prior[i]) != Key(prior[j])
    {
      assert prior[i] == ws[i] && prior[j] == ws[j];
    }
    forall m | 0 <= m < |prior|
      ensures Key(prior[m]) != Key(ws[|ws| - 1])
    {
      assert prior[m] == ws[m];
    }
    KeyAbsent(prior, Key(ws[|ws| - 1]));
  }

  /** The order-preserving loop of `deduplicate_words` over a set of seen keys. */
  method KeepFirstSpellings(words: seq<string>) returns (unique: seq<string>)
    ensures unique == Dedupe(words)
  {
    var seen: set<string> := {};
    unique := [];
    var i := 0;
    while i < |words|
      invariant 0 <= i <= |words|
      invariant unique == Dedupe(words[..i])
      invariant seen == Keys(words[..i])
    {
      var w := words[i];
      TakeNext(words, i);
      DedupeAppend(words[..i], w);
      KeysAppend(words[..i], w);
      if Key(w) !in seen {
        seen := seen + {Key(w)};
        unique := unique + [w];
      }
      i := i + 1;
    }
    TakeAll(words);
  }

  /** `deduplicate_words`: the text written back and the number of words removed. */
  method DeduplicateWords(file: Option<string>) returns (saved: string, removed: int)
    ensures saved == SaveWords(Dedupe(LoadWords(file)))
    ensures removed == |LoadWords(file)| - |Dedupe(LoadWords(file))| && removed >= 0
  {
    var words := LoadWords(file);
    var unique := KeepFirstSpellings(words);
    saved := SaveWords(unique);
    removed := |words| - |unique|;
  }

  /** Deduplicating a second time finds nothing more to remove. */
  lemma DedupeIdempotent(file: Option<string>)
    ensures var again := LoadWords(Some(SaveWords(Dedupe(LoadWords(file)))));
            again == Dedupe(LoadWords(file)) && Dedupe(again) == again
  {
    var words := LoadWords(file);
    var unique := Dedupe(words);
    forall k | 0 <= k < |unique|
      ensures IsStored(unique[k])
    {
      assert unique[k] in words;
    }
    StoredRoundTrip(unique);
    DedupeOfDistinct(unique);
  }

  // ---------------------------------------------------------------- adding

  lemma {:induction false} KeysConcat(a: seq<string>, b: seq<string>)
    ensures Keys(a + b) == Keys(a) + Keys(b)
  {
    if |b| > 0 {
      var prior := b[..|b| - 1];
      KeysConcat(a, prior);
      assert a + b == (a + prior) + [b[|b| - 1]];
      KeysAppend(a + prior, b[|b| - 1]);
    } else {
      assert a + b == a;
    }
  }

  /** One step of the `add_words` loop: the stripped word is appended when it is not blank and
      its key is not yet present. */
  function AddOne(words: seq<string>, raw: string): seq<string> {
    var w := Strip(raw);
    if w != "" && Key(w) !in Keys(words) then words + [w] else words
  }

  /** The list after `add_words` has taken every new word in turn. */
  function AddAll(existing: seq<string>, news: seq<string>): seq<string>
    decreases |news|
  {
    if |news| == 0 then existing else AddAll(AddOne(existing, news[0]), news[1..])
  }

  /** The old list is kept, unchanged, at the front. */
  lemma {:induction false} AddAllKeepsExisting(existing: seq<string>, news: seq<string>)
    ensures |AddAll(existing, news)| >= |existing|
    ensures AddAll(existing, news)[..|existing|] == existing
    decreases |news|
  {
    if |news| > 0 {
      var step := AddOne(existing, news[0]);
      AddAllKeepsExisting(step, news[1..]);
      AppendPrefix(existing, Strip(news[0]));
      PrefixOfPrefix(AddAll(existing, news), step, existing);
    }
  }

  /** Every word appended is stripped and not blank. */
  lemma {:induction false} AddAllAppendsTidy(existing: seq<string>, news: seq<string>)
    ensures forall k | |existing| <= k < |AddAll(existing, news)| :: Tidy(AddAll(existing, news)[k])
    decreases |news|
  {
    if |news| > 0 {
      var step := AddOne(existing, news[0]);
      var r := AddAll(existing, news);
      AddAllAppendsTidy(step, news[1..]);
      AddAllKeepsExisting(step, news[1..]);
      forall k | |existing| <= k < |r|
        ensures Tidy(r[k])
      {
        if k < |step| {
          var w := Strip(news[0]);
          AppendPrefix(existing, w);
          StripIdempotent(news[0]);
          assert r[k] == step[k] == w;
        }
      }
    }
  }

  /** Every word appended has a key that no word before it has. */
  lemma {:induction false} AddAllAppendsFresh(existing: seq<string>, news: seq<string>)
    ensures var r := AddAll(existing, news);
      forall i, j | 0 <= i < j < |r| && |existing| <= j :: Key(r[i]) != Key(r[j])
    decreases |news|
  {
    if |news| > 0 {
      var step := AddOne(existing, news[0]);
      var r := AddAll(existing, news);
      AddAllAppendsFresh(step, news[1..]);
      AddAllKeepsExisting(step, news[1..]);
      if |step| > |existing| {
        var w := Strip(news[0]);
        AppendPrefix(existing, w);
        forall i, j | 0 <= i < j < |r| && |existing| <= j
          ensures Key(r[i]) != Key(r[j])
        {
          if j == |existing| {
            assert r[j] == step[j] == w;
            assert r[i] == step[i] == existing[i];
            KeyIn(existing, i);
          }
        }
      }
    }
  }

  /** The keys afterwards are the old keys together with those of the cleaned new words. */
  lemma {:induction false} AddAllKeys(existing: seq<string>, news: seq<string>)
    ensures Keys(AddAll(existing, news)) == Keys(existing) + Keys(Clean(news))
    decreases |news|
  {
    if |news| > 0 {
      var step := AddOne(existing, news[0]);
      var w := Strip(news[0]);
      AddAllKeys(step, news[1..]);
      KeysConcat(Cleaned(news[0]), Clean(news[1..]));
      if w != "" {
        KeysAppend([], w);
        KeysAppend(existing, w);
      }
    }
  }

  lemma DedupeAppend(ws: seq<string>, w: string)
    ensures Dedupe(ws + [w]) == if Key(w) in Keys(ws) then Dedupe(ws) else Dedupe(ws) + [w]
  {
    assert (ws + [w])[..|ws|] == ws;
  }

  /** Deduplicating after a prefix was already deduplicated changes nothing. */
  lemma {:induction false} DedupeOfDedupedPrefix(a: seq<string>, b: seq<string>)
    ensures Dedupe(Dedupe(a) + b) == Dedupe(a + b)
  {
    var d := Dedupe(a);
    if |b| == 0 {
      assert d + b == d;
      assert a + b == a;
      DedupeOfDistinct(d);
    } else {
      var prior := b[..|b| - 1];
      var w := b[|b| - 1];
      DedupeOfDedupedPrefix(a, prior);
      SplitLast(d, b);
      SplitLast(a, b);
      DedupeAppend(d + prior, w);
      DedupeAppend(a + prior, w);
      KeysConcat(d, prior);
      KeysConcat(a, prior);
    }
  }

  /** Against a list with distinct keys, adding is deduplicating the list with the cleaned new
      words behind it. */
  lemma {:induction false} AddAllIsDedupe(existing: seq<string>, news: seq<string>)
    requires DistinctKeys(existing)
    ensures AddAll(existing, news) == Dedupe(existing + Clean(news))
    decreases |news|
  {
    if |news| == 0 {
      DedupeOfDistinct(existing);
      assert existing + [] == existing;
    } else {
      var c := Cleaned(news[0]);
      var step := AddOne(existing, news[0]);
      DedupeOfDistinct(existing);
      assert step == Dedupe(existing + c) by {
        if c != [] {
          assert (existing + c)[..|existing|] == existing;
        } else {
          assert existing + c == existing;
        }
      }
      AddAllIsDedupe(step, news[1..]);
      ConcatAssoc(existing, c, Clean(news[1..]));
      DedupeOfDedupedPrefix(existing + c, Clean(news[1..]));
    }
  }

  /** The loop of `add_words` over the new words, with the key set kept alongside. */
  method AppendNewWords(existing: seq<string>, news: seq<string>) returns (words: seq<string>, added: int)
    ensures words == AddAll(existing, news)
    ensures added == |words| - |existing| && added >= 0
  {
    words := existing;
    var existingSet := Keys(existing);
    added := 0;
    var i := 0;
    AddAllKeepsExisting(existing, news);
    while i < |news|
      invariant 0 <= i <= |news|
      invariant AddAll(words, news[i..]) == AddAll(existing, news)
      invariant |words| >= |existing|
      invariant existingSet == Keys(words)
      invariant added == |words| - |existing|
    {
      var w := Strip(news[i]);
      assert news[i..][1..] == news[i + 1..];
      if w != "" && Key(w) !in existingSet {
        KeysAppend(words, w);
        words := words + [w];
        existingSet := existingSet + {Key(w)};
        added := added + 1;
      }
      i := i + 1;
    }
  }

  /** `add_words`: the text written back and the number of words added. */
  method AddWords(file: Option<string>, news: seq<string>) returns (saved: string, added: int)
    ensures saved == SaveWords(AddAll(LoadWords(file), news))
    ensures added == |AddAll(LoadWords(file), news)| - |LoadWords(file)| && added >= 0
  {
    var existing := LoadWords(file);
    var words;
    words, added := AppendNewWords(existing, news);
    saved := SaveWords(words);
  }

  /** Words whose keys are all present already add nothing. */
  lemma {:induction false} AddAgainIsNoop(existing: seq<string>, news: seq<string>)
    requires Keys(Clean(news)) <= Keys(existing)
    ensures AddAll(existing, news) == existing
    decreases |news|
  {
    if |news| > 0 {
      KeysConcat(Cleaned(news[0]), Clean(news[1..]));
      if Strip(news[0]) != "" {
        KeysAppend([], Strip(news[0]));
      }
      AddAgainIsNoop(existing, news[1..]);
    }
  }

  /** Adding to a deduplicated bank keeps it deduplicated, and re-adding the same words adds none. */
  lemma AddKeepsDistinct(existing: seq<string>, news: seq<string>)
    requires DistinctKeys(existing)
    ensures DistinctKeys(AddAll(existing, news))
    ensures AddAll(AddAll(existing, news), news) == AddAll(existing, news)
  {
    AddAllIsDedupe(existing, news);
    AddAllKeys(existing, news);
    AddAgainIsNoop(AddAll(existing, news), news);
  }
}
