/** `parse_json_response`: recovering one JSON value from a model's free-text reply.
    The JSON decoder itself (`json.loads`) is a parameter `parse`, so every result here holds
    for any decoder; the two regular-expression searches are written out as scans. */
module Extractor {
  import opened Wrappers
  import opened Text
  import opened JsonData

  const Fence: string := "```"

  predicate FenceAt(t: string, i: int) {
    0 <= i && i + 3 <= |t| && t[i..i + 3] == Fence
  }

  /** Greedy `\s*` starting at `i`: the first position from `i` on that is not whitespace. */
  function SkipSpaces(t: string, i: nat): (j: nat)
    requires i <= |t|
    ensures i <= j <= |t|
    ensures forall k | i <= k < j :: IsSpace(t[k])
    ensures j < |t| ==> !IsSpace(t[j])
    decreases |t| - i
  {
    if i < |t| && IsSpace(t[i]) then SkipSpaces(t, i + 1) else i
  }

  /** The `{` that opens group 1 when the pattern ```` ```(?:json)?\s*(\{ ```` starts matching
      at `s`. Trying the `json` tag first and then without it amounts to this single choice,
      because without the tag the character after the backticks would have to be `{` or space. */
  function OpenBrace(t: string, s: int): (r: Option<nat>)
    ensures r.Some? ==> FenceAt(t, s) && s + 3 <= r.value < |t| && t[r.value] == '{'
    ensures r.Some? ==> forall k | s + 3 <= k < r.value :: t[k] != '{'
  {
    if !FenceAt(t, s) then None
    else
      var a := s + 3;
      var tagged := a + 4 <= |t| && t[a..a + 4] == "json";
      var p := SkipSpaces(t, if tagged then a + 4 else a);
      if p < |t| && t[p] == '{' then
        assert tagged ==> forall k | a <= k < a + 4 :: t[k] == t[a..a + 4][k - a];
        Some(p)
      else None
  }

  /** A `}` at `k` after which `\s*` and three backticks follow. Since a backtick is not
      whitespace, the greedy `\s*` is the only way the closing fence can be reached. */
  predicate ClosesAt(t: string, k: int) {
    0 <= k < |t| && t[k] == '}' && FenceAt(t, SkipSpaces(t, k + 1))
  }

  /** The closing condition stated directly: some whitespace run, then the fence. */
  lemma ClosesAtMeansSpacesThenFence(t: string, k: nat, j: nat)
    requires FenceAt(t, j)
    requires k < |t| && t[k] == '}' && k + 1 <= j
    requires forall m | k + 1 <= m < j :: IsSpace(t[m])
    ensures ClosesAt(t, k)
  {
    assert t[j] == t[j..j + 3][0] == '`';
  }

  /** The lazy `.*?\}`: the first position from `from` on that can close the block. */
  function FirstClose(t: string, from: nat): (r: Option<nat>)
    ensures r.Some? ==> from <= r.value && ClosesAt(t, r.value)
    ensures r.Some? ==> forall k | from <= k < r.value :: !ClosesAt(t, k)
    ensures r.None? ==> forall k | from <= k :: !ClosesAt(t, k)
    decreases |t| - from
  {
    if from >= |t| then None
    else if ClosesAt(t, from) then Some(from)
    else FirstClose(t, from + 1)
  }

  /** The fenced-block pattern matches starting at `s` with its group ending at the `}` at `k`. */
  predicate FenceMatchAt(t: string, s: int, k: int) {
    OpenBrace(t, s).Some? && OpenBrace(t, s).value < k && ClosesAt(t, k)
  }

  /** No match can start at `s` when there is no opening there or nothing can close it. */
  lemma NoMatchFrom(t: string, s: int)
    requires OpenBrace(t, s).None? || FirstClose(t, OpenBrace(t, s).value + 1).None?
    ensures forall k :: !FenceMatchAt(t, s, k)
  {
  }

  /** `re.search` of the fenced-block pattern from `s` on: the leftmost start, and at that
      start the shortest group. Returns the start and the position of the closing `}`. */
  function FenceSearch(t: string, s: nat): (r: Option<(nat, nat)>)
    ensures r.Some? ==> s <= r.value.0 && FenceMatchAt(t, r.value.0, r.value.1)
    ensures r.Some? ==> forall s', k | s <= s' < r.value.0 :: !FenceMatchAt(t, s', k)
    ensures r.Some? ==> forall k | k < r.value.1 :: !FenceMatchAt(t, r.value.0, k)
    ensures r.None? ==> forall s', k | s <= s' :: !FenceMatchAt(t, s', k)
    decreases |t| - s
  {
    if s + 3 > |t| then
      assert forall s' | s <= s' :: !FenceAt(t, s');
      None
    else if OpenBrace(t, s).None? || FirstClose(t, OpenBrace(t, s).value + 1).None? then
      NoMatchFrom(t, s);
      FenceSearch(t, s + 1)
    else
      Some((s, FirstClose(t, OpenBrace(t, s).value + 1).value))
  }

  /** The positions of the `{` and `}` that delimit group 1 of
      `re.search(r'```(?:json)?\s*(\{.*?\})\s*```', text, re.DOTALL)`. */
  function FencedGroup(t: string): (r: Option<(nat, nat)>)
    ensures r.Some? ==> r.value.0 < r.value.1 < |t| && t[r.value.0] == '{' && t[r.value.1] == '}'
    ensures r.Some? <==> exists s, k :: FenceMatchAt(t, s, k)
  {
    match FenceSearch(t, 0)
    case None => None
    case Some((s, k)) => Some((OpenBrace(t, s).value, k))
  }

  /** Position of the first `c` in `t`. */
  function FirstIndexOf(t: string, c: char): (r: Option<nat>)
    ensures r.Some? ==> r.value < |t| && t[r.value] == c && forall k | 0 <= k < r.value :: t[k] != c
    ensures r.None? ==> forall k | 0 <= k < |t| :: t[k] != c
  {
    if |t| == 0 then None
    else if t[0] == c then Some(0)
    else match FirstIndexOf(t[1..], c)
      case None => None
      case Some(i) => Some(i + 1)
  }

  /** Position of the last `c` in `t`. */
  function LastIndexOf(t: string, c: char): (r: Option<nat>)
    ensures r.Some? ==> r.value < |t| && t[r.value] == c && forall k | r.value < k < |t| :: t[k] != c
    ensures r.None? ==> forall k | 0 <= k < |t| :: t[k] != c
  {
    if |t| == 0 then None
    else if t[|t| - 1] == c then Some(|t| - 1)
    else LastIndexOf(t[..|t| - 1], c)
  }

  /** `re.search(r'\{.*\}', text, re.DOTALL)`: the leftmost `{` and, greedily, the last `}`
      after it. Returns the two positions. */
  function BraceSearch(t: string): (r: Option<(nat, nat)>)
    ensures r.Some? ==> r.value.0 < r.value.1 < |t| && t[r.value.0] == '{' && t[r.value.1] == '}'
    ensures r.Some? ==> forall k | 0 <= k < r.value.0 :: t[k] != '{'
    ensures r.Some? ==> forall k | r.value.1 < k < |t| :: t[k] != '}'
    ensures r.None? <==> forall i, j | 0 <= i < j < |t| :: !(t[i] == '{' && t[j] == '}')
  {
    match (FirstIndexOf(t, '{'), LastIndexOf(t, '}'))
    case (Some(i), Some(j)) => if i < j then Some((i, j)) else None
    case _ => None
  }

  /** The matched text of the greedy brace search. */
  function BraceSpan(t: string): (r: Option<string>)
    ensures r.Some? ==> |r.value| >= 2 && r.value[0] == '{' && r.value[|r.value| - 1] == '}'
  {
    match BraceSearch(t)
    case None => None
    case Some((i, j)) => Some(t[i..j + 1])
  }

  /** `parse_json_response`: the whole text, else the first fenced block, else the greedy brace
      span, each handed to the decoder. `None` stands for the `JSONDecodeError` it raises.
      Once a fenced block is found its decode is final: a failure there does not fall back
      to the brace span. */
  function ParseJsonResponse(t: string, parse: string -> Option<Json>): (r: Option<Json>)
    ensures parse(t).Some? ==> r == parse(t)
    ensures r.Some? && parse(t).None? ==>
      exists i, j :: 0 <= i < j < |t| && t[i] == '{' && t[j] == '}' && r == parse(t[i..j + 1])
    ensures parse(t).None? && FencedGroup(t).Some? ==>
      r == parse(t[FencedGroup(t).value.0..FencedGroup(t).value.1 + 1])
    ensures parse(t).None? && FencedGroup(t).None? && r.Some? ==>
      exists i, j :: 0 <= i < j < |t| && t[i] == '{' && t[j] == '}'
                     && (forall k | 0 <= k < i :: t[k] != '{')
                     && (forall k | j < k < |t| :: t[k] != '}')
                     && r == parse(t[i..j + 1])
    ensures parse(t).None? && FencedGroup(t).None? && BraceSearch(t).Some? ==>
      r == parse(t[BraceSearch(t).value.0..BraceSearch(t).value.1 + 1])
    ensures parse(t).None? && FencedGroup(t).None? && BraceSearch(t).None? ==> r.None?
  {
    if parse(t).Some? then parse(t)
    else if FencedGroup(t).Some? then FencedStage(t, parse)
    else BraceStage(t, parse)
  }

  /** The fenced stage: the decoding of the fenced group's text. */
  function FencedStage(t: string, parse: string -> Option<Json>): (r: Option<Json>)
    requires FencedGroup(t).Some?
    ensures r == parse(t[FencedGroup(t).value.0..FencedGroup(t).value.1 + 1])
    ensures r.Some? ==>
      exists i, j :: 0 <= i < j < |t| && t[i] == '{' && t[j] == '}' && r == parse(t[i..j + 1])
  {
    var (p, k) := FencedGroup(t).value;
    assert 0 <= p < k < |t| && t[p] == '{' && t[k] == '}';
    parse(t[p..k + 1])
  }

  /** `t[i]` is the first `{` of `t` and `t[j]`, after it, the last `}`. */
  ghost predicate OuterBraces(t: string, i: int, j: int) {
    && 0 <= i < j < |t| && t[i] == '{' && t[j] == '}'
    && (forall k | 0 <= k < i :: t[k] != '{')
    && (forall k | j < k < |t| :: t[k] != '}')
  }

  /** The brace stage: the decoding of the span from the first `{` to the last `}`, if any. */
  function BraceStage(t: string, parse: string -> Option<Json>): (r: Option<Json>)
    ensures BraceSearch(t).Some? ==> r == parse(t[BraceSearch(t).value.0..BraceSearch(t).value.1 + 1])
    ensures BraceSearch(t).None? ==> r.None?
    ensures r.Some? ==> exists i, j :: OuterBraces(t, i, j) && r == parse(t[i..j + 1])
  {
    match BraceSearch(t)
    case Some((i, j)) =>
      assert OuterBraces(t, i, j);
      parse(t[i..j + 1])
    case None => None
  }

  /** A fenced block that does not decode makes the whole extraction fail, even when the
      greedy brace span would have decoded. */
  lemma FencedFailureIsFinal(t: string, parse: string -> Option<Json>)
    requires parse(t).None?
    requires FencedGroup(t).Some?
    requires parse(t[FencedGroup(t).value.0..FencedGroup(t).value.1 + 1]).None?
    ensures ParseJsonResponse(t, parse).None?
  {
  }

  /** Without a decodable whole text, a fence or a `{`...`}` pair, nothing is extracted. */
  lemma NoBracesNoValue(t: string, parse: string -> Option<Json>)
    requires parse(t).None?
    requires forall i, j | 0 <= i < j < |t| :: !(t[i] == '{' && t[j] == '}')
    ensures ParseJsonResponse(t, parse).None?
  {
  }

  // ---------------------------------------------------------------- wrapped payloads

  predicate NoBacktick(s: string) {
    forall k | 0 <= k < |s| :: s[k] != '`'
  }

  /** Text without a backtick has no fenced block. */
  lemma NoBacktickNoFence(t: string)
    requires NoBacktick(t)
    ensures FencedGroup(t).None?
  {
    forall s | 0 <= s && s + 3 <= |t|
      ensures !FenceAt(t, s)
    {
      assert t[s..s + 3][0] == t[s];
    }
  }

  /** An object text wrapped in a ```` ```json ```` fence. */
  function Fenced(x: string): string {
    "```json\n" + x + "\n```"
  }

  /** In a fenced object the opening brace is the one right after the ```` ```json ```` line. */
  lemma FencedOpensAt(x: string)
    requires |x| >= 2 && x[0] == '{'
    ensures OpenBrace(Fenced(x), 0) == Some(8)
  {
    var t := Fenced(x);
    assert t[0..3] == Fence;
    assert t[3..7] == "json";
    assert IsSpace(t[7]);
    assert t[8] == x[0];
    assert SkipSpaces(t, 7) == 8;
  }

  /** In a fenced object the block closes at the object's last character and nowhere before. */
  lemma FencedClosesAt(x: string)
    requires |x| >= 2 && x[|x| - 1] == '}' && NoBacktick(x)
    ensures FirstClose(Fenced(x), 9) == Some(7 + |x|)
  {
    var t := Fenced(x);
    var last := 7 + |x|;
    assert forall k | 0 <= k < |x| :: t[8 + k] == x[k];
    forall k | 9 <= k < last
      ensures !ClosesAt(t, k)
    {
      var e := SkipSpaces(t, k + 1);
      assert !IsSpace(t[last]);
      assert t[e] == x[e - 8];
    }
    assert t[last + 1] == '\n';
    assert t[last + 2..last + 5] == Fence;
    assert SkipSpaces(t, last + 2) == last + 2;
    assert ClosesAt(t, last);
  }

  lemma FencedBlockFound(x: string)
    requires |x| >= 2 && x[0] == '{' && x[|x| - 1] == '}' && NoBacktick(x)
    ensures FencedGroup(Fenced(x)) == Some((8, 7 + |x|))
    ensures Fenced(x)[8..8 + |x|] == x
  {
    var t := Fenced(x);
    FencedOpensAt(x);
    FencedClosesAt(x);
    assert FenceSearch(t, 0) == Some((0, 7 + |x|));
  }

  /** The greedy brace search recovers an object text from surrounding prose that has no braces. */
  lemma BraceSpanFound(pre: string, x: string, post: string)
    requires |x| >= 2 && x[0] == '{' && x[|x| - 1] == '}'
    requires forall k | 0 <= k < |pre| :: pre[k] != '{'
    requires forall k | 0 <= k < |post| :: post[k] != '}'
    ensures BraceSpan(pre + x + post) == Some(x)
  {
    var t := pre + x + post;
    var i := |pre|;
    var j := |pre| + |x| - 1;
    assert t[i] == '{' && t[j] == '}';
    assert forall k | 0 <= k < i :: t[k] == pre[k];
    assert forall k | j < k < |t| :: t[k] == post[k - |pre| - |x|];
    var (a, b) := BraceSearch(t).value;
    assert a == i && b == j;
    assert t[i..j + 1] == x;
  }

  lemma NoBacktickConcat(pre: string, x: string, post: string)
    requires NoBacktick(pre) && NoBacktick(x) && NoBacktick(post)
    ensures NoBacktick(pre + x + post)
  {
    var t := pre + x + post;
    forall k | 0 <= k < |t|
      ensures t[k] != '`'
    {
      if k < |pre| { assert t[k] == pre[k]; }
      else if k < |pre| + |x| { assert t[k] == x[k - |pre|]; }
      else { assert t[k] == post[k - |pre| - |x|]; }
    }
  }

  /** A fenced object is decoded from the block's body. */
  lemma FencedReplyDecoded(x: string, parse: string -> Option<Json>)
    requires |x| >= 2 && x[0] == '{' && x[|x| - 1] == '}' && NoBacktick(x)
    requires parse(Fenced(x)).None?
    ensures ParseJsonResponse(Fenced(x), parse) == parse(x)
  {
    FencedBlockFound(x);
  }

  /** An object inside prose without braces or backticks is decoded from the brace span. */
  lemma EmbeddedReplyDecoded(pre: string, x: string, post: string, parse: string -> Option<Json>)
    requires |x| >= 2 && x[0] == '{' && x[|x| - 1] == '}'
    requires NoBacktick(pre) && NoBacktick(x) && NoBacktick(post)
    requires forall k | 0 <= k < |pre| :: pre[k] != '{'
    requires forall k | 0 <= k < |post| :: post[k] != '}'
    requires parse(pre + x + post).None?
    ensures ParseJsonResponse(pre + x + post, parse) == parse(x)
  {
    NoBacktickConcat(pre, x, post);
    NoBacktickNoFence(pre + x + post);
    BraceSpanFound(pre, x, post);
  }

  /** The same object is recovered whether the reply is bare, fenced or surrounded by prose
      (given a decoder that rejects the wrapped texts as a whole, as `json.loads` does). */
  lemma WrappingDoesNotMatter(x: string, pre: string, post: string, parse: string -> Option<Json>)
    requires |x| >= 2 && x[0] == '{' && x[|x| - 1] == '}' && NoBacktick(x)
    requires parse(x).Some?
    requires parse(Fenced(x)).None?
    requires NoBacktick(pre) && NoBacktick(post)
    requires forall k | 0 <= k < |pre| :: pre[k] != '{'
    requires forall k | 0 <= k < |post| :: post[k] != '}'
    requires parse(pre + x + post).None?
    ensures ParseJsonResponse(x, parse) == ParseJsonResponse(Fenced(x), parse)
                                        == ParseJsonResponse(pre + x + post, parse) == parse(x)
  {
    FencedReplyDecoded(x, parse);
    EmbeddedReplyDecoded(pre, x, post, parse);
  }
}
