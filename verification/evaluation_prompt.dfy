/** `get_evaluation_prompt`: the (system, user) prompt pair for grading answers. Questions and
    answers are paired by position, as Python's `zip` does, and shorter input wins. */
module EvaluationPrompt {
  import opened Text
  import opened JsonData
  import opened Backend

  const SystemPrompt: string :=
    "You are a patient English teacher responsible for evaluating student performance and "
    + "providing constructive feedback. You must return valid JSON format only."

  const Opening: string := "Please evaluate the following answers:\n\n"
  /** Stands for the fixed requirements and JSON layout that close the template. */
  const Closing: string := "\n\nRequirements:\n"

  /** A question the builder can format: indexing `type`, `question` and `correct_answer`
      would raise on anything else. */
  predicate Gradable(q: Json) {
    Has(q, "type") && Has(q, "question") && Has(q, "correct_answer")
  }

  /** The questions that `zip` pairs with an answer are all gradable. */
  predicate PairedGradable(questions: seq<Json>, answers: seq<string>) {
    forall i | 0 <= i < |questions| && i < |answers| :: Gradable(questions[i])
  }

  function Min(a: nat, b: nat): nat {
    if a < b then a else b
  }

  /** The pieces of the numbered block for one question and the student's answer to it;
      the type, question, expected answer and given answer sit at positions 1, 3, 5 and 7. */
  function BlockParts(n: int, q: Json, answer: string): seq<string>
    requires Gradable(q)
  {
    ["Question " + IntToString(n) + " (", Show(Get(q, "type")),
     "):\nQ: ", Show(Get(q, "question")),
     "\nCorrect Answer: ", Show(Get(q, "correct_answer")),
     "\nStudent Answer: ", answer, "\n"]
  }

  function Block(n: int, q: Json, answer: string): string
    requires Gradable(q)
  {
    Concat(BlockParts(n, q, answer))
  }

  /** The blocks of `enumerate(zip(questions, answers), first)`. */
  function Blocks(questions: seq<Json>, answers: seq<string>, first: int): (r: seq<string>)
    requires PairedGradable(questions, answers)
    ensures |r| == Min(|questions|, |answers|)
    ensures forall i | 0 <= i < |r| :: r[i] == Block(first + i, questions[i], answers[i])
  {
    seq(Min(|questions|, |answers|), i requires 0 <= i < Min(|questions|, |answers|) =>
      Block(first + i, questions[i], answers[i]))
  }

  /** The prompt pair for a list of questions and the answers given. */
  function Build(questions: seq<Json>, answers: seq<string>): (r: PromptPair)
    requires PairedGradable(questions, answers)
    ensures r.system == SystemPrompt
    ensures IsInfix(Join(Blocks(questions, answers, 1), "\n"), r.user)
  {
    var qa := Join(Blocks(questions, answers, 1), "\n");
    InfixOfConcat(qa, Opening, Closing);
    PromptPair(SystemPrompt, Opening + qa + Closing)
  }

  /** Question `i` (numbered `i + 1`) is shown with its own type, text and expected answer
      next to answer `i`, and that block is part of the user prompt. */
  lemma PairedByPosition(questions: seq<Json>, answers: seq<string>, i: nat)
    requires PairedGradable(questions, answers)
    requires i < |questions| && i < |answers|
    ensures IsInfix(Block(i + 1, questions[i], answers[i]), Build(questions, answers).user)
    ensures IsInfix(Show(Get(questions[i], "type")), Block(i + 1, questions[i], answers[i]))
    ensures IsInfix(Show(Get(questions[i], "question")), Block(i + 1, questions[i], answers[i]))
    ensures IsInfix(Show(Get(questions[i], "correct_answer")), Block(i + 1, questions[i], answers[i]))
    ensures IsInfix(answers[i], Block(i + 1, questions[i], answers[i]))
  {
    var blocks := Blocks(questions, answers, 1);
    JoinHasEach(blocks, "\n", i);
    InfixTransitive(blocks[i], Join(blocks, "\n"), Build(questions, answers).user);
    var parts := BlockParts(i + 1, questions[i], answers[i]);
    ConcatHasEach(parts, 1);
    ConcatHasEach(parts, 3);
    ConcatHasEach(parts, 5);
    ConcatHasEach(parts, 7);
  }

  /** Questions or answers beyond the shorter list are ignored. */
  lemma ExtraItemsIgnored(questions: seq<Json>, answers: seq<string>)
    requires PairedGradable(questions, answers)
    ensures var m := Min(|questions|, |answers|);
            Build(questions, answers) == Build(questions[..m], answers[..m])
  {
    var m := Min(|questions|, |answers|);
    var qs, given := questions[..m], answers[..m];
    assert PairedGradable(qs, given) by {
      forall i | 0 <= i < m
        ensures Gradable(qs[i])
      {
        assert qs[i] == questions[i];
      }
    }
    var full := Blocks(questions, answers, 1);
    var cut := Blocks(qs, given, 1);
    forall i | 0 <= i < m
      ensures full[i] == cut[i]
    {
      assert qs[i] == questions[i] && given[i] == answers[i];
    }
    assert full == cut;
  }
}
