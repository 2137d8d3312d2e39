/** `core/content_generator.py`: the article-and-questions schema check and the generation
    pipeline built on the shared retry loop. */
module ContentGenerator {
  import opened Wrappers
  import opened JsonData
  import opened Backend
  import opened Retry
  import ArticlePrompt

  const MinArticleLength: nat := 50
  const QuestionCount: nat := 5
  const OptionCount: nat := 4

  /** One entry of `questions`: a dict with `type`, `question` and `correct_answer`; a
      `multiple_choice` entry also needs a four-element `options` list, and any other type
      must be `fill_blank` or `true_false`. */
  predicate ValidQuestion(q: Json) {
    && q.JObject?
    && Has(q, "type") && Has(q, "question") && Has(q, "correct_answer")
    && if Get(q, "type") == JStr("multiple_choice") then
         Has(q, "options") && Get(q, "options").JList? && |Get(q, "options").items| == OptionCount
       else
         Get(q, "type") == JStr("fill_blank") || Get(q, "type") == JStr("true_false")
  }

  /** `validate_article_response`. */
  predicate ValidArticle(data: Json) {
    && data.JObject?
    && Has(data, "article") && Has(data, "questions")
    && Get(data, "article").JStr? && |Get(data, "article").s| >= MinArticleLength
    && Get(data, "questions").JList? && |Get(data, "questions").items| == QuestionCount
    && forall i | 0 <= i < QuestionCount :: ValidQuestion(Get(data, "questions").items[i])
  }

  /** A value without an `article` text of at least 50 characters, or whose `questions` is
      not a list of exactly five, is rejected. */
  lemma RejectsShortArticleOrWrongCount(data: Json)
    requires data.JObject?
    requires !Has(data, "article") || !Get(data, "article").JStr? || |Get(data, "article").s| < 50
             || !Has(data, "questions") || !Get(data, "questions").JList?
             || |Get(data, "questions").items| != 5
    ensures !ValidArticle(data)
  {
  }

  // ---------------------------------------------------------------- a typed reference

  datatype Kind = MultipleChoice | FillBlank | TrueFalse

  function KindName(k: Kind): string {
    match k
    case MultipleChoice => "multiple_choice"
    case FillBlank => "fill_blank"
    case TrueFalse => "true_false"
  }

  /** A question as the prompt asks for it; `answer` may be any JSON value. */
  datatype Question = Question(kind: Kind, text: Json, answer: Json, options: seq<Json>)

  datatype Article = Article(text: string, questions: seq<Question>)

  function EncodeQuestion(q: Question): Json {
    JObject([("type", JStr(KindName(q.kind))), ("question", q.text)]
            + (if q.kind == MultipleChoice then [("options", JList(q.options))] else [])
            + [("correct_answer", q.answer)])
  }

  function EncodeArticle(a: Article): Json {
    JObject([("article", JStr(a.text)),
             ("questions", JList(seq(|a.questions|, i requires 0 <= i < |a.questions| =>
                                   EncodeQuestion(a.questions[i]))))])
  }

  /** The typed shape the validator accepts. */
  predicate WellFormed(a: Article) {
    && |a.text| >= MinArticleLength
    && |a.questions| == QuestionCount
    && forall i | 0 <= i < |a.questions| ::
         a.questions[i].kind == MultipleChoice ==> |a.questions[i].options| == OptionCount
  }

  lemma EncodedQuestionValid(q: Question)
    ensures ValidQuestion(EncodeQuestion(q)) <==> (q.kind == MultipleChoice ==> |q.options| == OptionCount)
  {
    if q.kind == MultipleChoice {
      EncodedChoiceQuestion(q);
    } else {
      EncodedOpenQuestion(q);
    }
  }

  lemma EncodedChoiceQuestion(q: Question)
    requires q.kind == MultipleChoice
    ensures ValidQuestion(EncodeQuestion(q)) <==> |q.options| == OptionCount
  {
    var f := EncodeQuestion(q).fields;
    assert f == [("type", JStr("multiple_choice")), ("question", q.text),
                 ("options", JList(q.options)), ("correct_answer", q.answer)];
    LookupSole(f, 0);
    LookupSole(f, 1);
    LookupSole(f, 2);
    LookupSole(f, 3);
  }

  lemma EncodedOpenQuestion(q: Question)
    requires q.kind != MultipleChoice
    ensures ValidQuestion(EncodeQuestion(q))
  {
    var f := EncodeQuestion(q).fields;
    assert f == [("type", JStr(KindName(q.kind))), ("question", q.text), ("correct_answer", q.answer)];
    LookupSole(f, 0);
    LookupSole(f, 1);
    LookupSole(f, 2);
  }

  /** The validator accepts an encoded article exactly when it is well formed, whatever the
      mix of question kinds and whatever the expected answers: the 2/2/1 composition the
      prompt asks for and the answer values are not checked. */
  lemma EncodedArticleValidIff(a: Article)
    ensures ValidArticle(EncodeArticle(a)) <==> WellFormed(a)
  {
    var j := EncodeArticle(a);
    LookupSole(j.fields, 0);
    LookupSole(j.fields, 1);
    var items := Get(j, "questions").items;
    forall i | 0 <= i < |a.questions|
      ensures ValidQuestion(items[i]) <==>
              (a.questions[i].kind == MultipleChoice ==> |a.questions[i].options| == OptionCount)
    {
      EncodedQuestionValid(a.questions[i]);
    }
  }

  // ---------------------------------------------------------------- the pipeline

  /** `generate_article_and_questions`: the prompt is built once and sent unchanged on every
      call; at most `maxRetries` calls are made; the first reply whose extracted value passes
      `ValidArticle` is returned, and `None` when none does. */
  method GenerateArticleAndQuestions(words: seq<string>, age: int, lexile: int,
                                     replies: seq<Reply>, maxRetries: int,
                                     parse: string -> Option<Json>)
    returns (result: Option<Json>, sent: seq<PromptPair>)
    requires Budget(maxRetries) <= |replies|
    ensures |sent| <= Budget(maxRetries)
    ensures forall i | 0 <= i < |sent| :: sent[i] == ArticlePrompt.Build(words, age, lexile)
    ensures forall i | 0 <= i < |sent| - 1 :: Attempt(replies[i], parse, ValidArticle).None?
    ensures result.Some? ==> ValidArticle(result.value)
    ensures result.Some? ==> |sent| > 0 && result == Attempt(replies[|sent| - 1], parse, ValidArticle)
    ensures result.None? ==> |sent| == Budget(maxRetries)
    ensures result.None? ==> forall i | 0 <= i < |sent| :: Attempt(replies[i], parse, ValidArticle).None?
  {
    var prompt := ArticlePrompt.Build(words, age, lexile);
    result, sent := RetryLoop(prompt, replies, maxRetries, parse, ValidArticle);
  }
}
