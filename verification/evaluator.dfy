/** `core/evaluator.py`: the evaluation schema check, the grading pipeline built on the shared
    retry loop, and the record `save_test_log` writes (its file-system side is left out). */
module Evaluator {
  import opened Wrappers
  import opened JsonData
  import opened Backend
  import opened Retry
  import EvaluationPrompt

  const MaxScore: real := 100.0

  /** The number a value stands for when `isinstance(value, (int, float))` holds; Python's
      `bool` is a subclass of `int`, so `true` and `false` count as 1 and 0. */
  function NumericValue(j: Json): Option<real> {
    match j
    case JInt(i) => Some(i as real)
    case JFloat(f) => Some(f)
    case JBool(b) => Some(if b then 1.0 else 0.0)
    case _ => None
  }

  /** `validate_evaluation_response`: a dict holding all four keys, a numeric `score` in
      [0, 100] (both ends included) and a list `item_analysis`; nothing else is inspected. */
  predicate ValidEvaluation(data: Json) {
    && data.JObject?
    && Has(data, "score") && Has(data, "item_analysis")
    && Has(data, "overall_feedback") && Has(data, "suggestions")
    && NumericValue(Get(data, "score")).Some?
    && 0.0 <= NumericValue(Get(data, "score")).value <= MaxScore
    && Get(data, "item_analysis").JList?
  }

  /** An evaluation with its four parts; only `score` and the list-ness of the analysis are
      constrained by the validator. */
  datatype Evaluation = Evaluation(score: Json, items: seq<Json>, overall: Json, suggestions: Json)

  function EncodeEvaluation(e: Evaluation): Json {
    JObject([("score", e.score), ("item_analysis", JList(e.items)),
             ("overall_feedback", e.overall), ("suggestions", e.suggestions)])
  }

  /** An encoded evaluation passes exactly when its score is a number within [0, 100]; the
      analysis entries, the feedback and the suggestions may be anything. */
  lemma EncodedEvaluationValidIff(e: Evaluation)
    ensures ValidEvaluation(EncodeEvaluation(e)) <==>
            NumericValue(e.score).Some? && 0.0 <= NumericValue(e.score).value <= 100.0
  {
    var f := EncodeEvaluation(e).fields;
    LookupSole(f, 0);
    LookupSole(f, 1);
    LookupSole(f, 2);
    LookupSole(f, 3);
  }

  /** A boolean score passes the numeric check (as 1), and the bounds are inclusive. */
  lemma ScoreEdgeCases(items: seq<Json>, overall: Json, suggestions: Json)
    ensures ValidEvaluation(EncodeEvaluation(Evaluation(JBool(true), items, overall, suggestions)))
    ensures ValidEvaluation(EncodeEvaluation(Evaluation(JInt(0), items, overall, suggestions)))
    ensures ValidEvaluation(EncodeEvaluation(Evaluation(JFloat(100.0), items, overall, suggestions)))
    ensures !ValidEvaluation(EncodeEvaluation(Evaluation(JInt(101), items, overall, suggestions)))
    ensures !ValidEvaluation(EncodeEvaluation(Evaluation(JStr("90"), items, overall, suggestions)))
  {
    EncodedEvaluationValidIff(Evaluation(JBool(true), items, overall, suggestions));
    EncodedEvaluationValidIff(Evaluation(JInt(0), items, overall, suggestions));
    EncodedEvaluationValidIff(Evaluation(JFloat(100.0), items, overall, suggestions));
    EncodedEvaluationValidIff(Evaluation(JInt(101), items, overall, suggestions));
    EncodedEvaluationValidIff(Evaluation(JStr("90"), items, overall, suggestions));
  }

  /** `evaluate_answers`: the grading prompt is built once and sent unchanged on every call;
      at most `maxRetries` calls are made; the first reply whose extracted value passes
      `ValidEvaluation` is returned, and `None` when none does. */
  method EvaluateAnswers(questions: seq<Json>, answers: seq<string>,
                         replies: seq<Reply>, maxRetries: int,
                         parse: string -> Option<Json>)
    returns (result: Option<Json>, sent: seq<PromptPair>)
    requires EvaluationPrompt.PairedGradable(questions, answers)
    requires Budget(maxRetries) <= |replies|
    ensures |sent| <= Budget(maxRetries)
    ensures forall i | 0 <= i < |sent| :: sent[i] == EvaluationPrompt.Build(questions, answers)
    ensures forall i | 0 <= i < |sent| - 1 :: Attempt(replies[i], parse, ValidEvaluation).None?
    ensures result.Some? ==> ValidEvaluation(result.value)
    ensures result.Some? ==> |sent| > 0 && result == Attempt(replies[|sent| - 1], parse, ValidEvaluation)
    ensures result.None? ==> |sent| == Budget(maxRetries)
    ensures result.None? ==> forall i | 0 <= i < |sent| :: Attempt(replies[i], parse, ValidEvaluation).None?
  {
    var prompt := EvaluationPrompt.Build(questions, answers);
    result, sent := RetryLoop(prompt, replies, maxRetries, parse, ValidEvaluation);
  }

  /** The user's answers as the JSON list `json.dump` writes. */
  function AnswerList(answers: seq<string>): (r: Json)
    ensures r.JList? && |r.items| == |answers|
    ensures forall i | 0 <= i < |answers| :: r.items[i] == JStr(answers[i])
  {
    JList(seq(|answers|, i requires 0 <= i < |answers| => JStr(answers[i])))
  }

  /** The keys of a test-log record, in the order `save_test_log` writes them. */
  const LogKeys: seq<string> := ["timestamp", "article", "questions", "user_answers",
                                 "score", "item_analysis", "overall_feedback", "suggestions"]

  /** The dict `save_test_log` writes for one finished test, stamped with `timestamp`. */
  function TestLogRecord(timestamp: string, article: string, questions: seq<Json>,
                         answers: seq<string>, evaluation: Json): (r: Json)
    requires Has(evaluation, "score") && Has(evaluation, "item_analysis")
    requires Has(evaluation, "overall_feedback") && Has(evaluation, "suggestions")
    ensures r.JObject? && |r.fields| == |LogKeys|
    ensures forall k | 0 <= k < |LogKeys| :: r.fields[k].0 == LogKeys[k]
  {
    JObject([("timestamp", JStr(timestamp)), ("article", JStr(article)),
             ("questions", JList(questions)), ("user_answers", AnswerList(answers)),
             ("score", Get(evaluation, "score")), ("item_analysis", Get(evaluation, "item_analysis")),
             ("overall_feedback", Get(evaluation, "overall_feedback")),
             ("suggestions", Get(evaluation, "suggestions"))])
  }

  lemma LogKeysDistinct()
    ensures forall i, j | 0 <= i < j < |LogKeys| :: LogKeys[i] != LogKeys[j]
  {
  }

  /** Each key of a record laid out as `LogKeys` is looked up to its own field. */
  lemma LogFieldLookup(r: Json, k: nat)
    requires r.JObject? && |r.fields| == |LogKeys| && k < |LogKeys|
    requires forall m | 0 <= m < |LogKeys| :: r.fields[m].0 == LogKeys[m]
    ensures Lookup(r.fields, LogKeys[k]) == Some(r.fields[k].1)
  {
    LogKeysDistinct();
    LookupSole(r.fields, k);
  }

  /** A record's fields hold, retrievable by key, the test's own data and the four evaluation
      entries copied verbatim. */
  lemma TestLogRecordFields(timestamp: string, article: string, questions: seq<Json>,
                            answers: seq<string>, evaluation: Json)
    requires Has(evaluation, "score") && Has(evaluation, "item_analysis")
    requires Has(evaluation, "overall_feedback") && Has(evaluation, "suggestions")
    ensures var r := TestLogRecord(timestamp, article, questions, answers, evaluation);
      && Has(r, "timestamp") && Get(r, "timestamp") == JStr(timestamp)
      && Has(r, "article") && Get(r, "article") == JStr(article)
      && Has(r, "questions") && Get(r, "questions") == JList(questions)
      && Has(r, "user_answers") && Get(r, "user_answers") == AnswerList(answers)
      && Has(r, "score") && Get(r, "score") == Get(evaluation, "score")
      && Has(r, "item_analysis") && Get(r, "item_analysis") == Get(evaluation, "item_analysis")
      && Has(r, "overall_feedback") && Get(r, "overall_feedback") == Get(evaluation, "overall_feedback")
      && Has(r, "suggestions") && Get(r, "suggestions") == Get(evaluation, "suggestions")
  {
    var r := TestLogRecord(timestamp, article, questions, answers, evaluation);
    LogFieldLookup(r, 0);
    LogFieldLookup(r, 1);
    LogFieldLookup(r, 2);
    LogFieldLookup(r, 3);
    LogFieldLookup(r, 4);
    LogFieldLookup(r, 5);
    LogFieldLookup(r, 6);
    LogFieldLookup(r, 7);
  }
}
