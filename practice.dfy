/** The practice session: the `InterviewPractice` class, whose methods update
    the question bank, the selected question and the attempt history in place. */
module Practice {
  import opened Errors
  import opened Bank
  import opened Grading
  import opened Scores

  /** What `summary` returns: `{"total", "correct", "accuracy"}`. */
  datatype Report = Report(total: nat, correct: nat, accuracy: real)

  /** `correct / total if total > 0 else 0.0`, in exact arithmetic. */
  function Accuracy(correct: nat, total: nat): (a: real)
    requires correct <= total
    ensures 0.0 <= a <= 1.0
    ensures total > 0 ==> a * total as real == correct as real
    ensures total == 0 ==> a == 0.0
  {
    if total > 0 then correct as real / total as real else 0.0
  }

  class InterviewPractice {
    /** The question bank, in insertion order. */
    var questions: seq<Question>
    /** The id of the question last selected by `GetQuestion`, if any. */
    var currentQid: Option<string>
    /** Every attempt, grouped by question id, in the order they were made. */
    var scores: History
    /** Whether the sentence-embedding model could be loaded at construction. */
    const hasModel: bool
    /** Every id that has ever been the selected question. */
    ghost var asked: set<string>

    /** An attempt is only ever recorded against the selected question. */
    ghost predicate Valid()
      reads this
    {
      scores.Keys <= asked && (currentQid.Some? ==> currentQid.value in asked)
    }

    /** `__init__`: the given bank (`None` and the empty list both give an
        empty one), nothing selected, no attempts. */
    constructor (initial: Option<seq<Question>>, modelLoaded: bool)
      ensures Valid()
      ensures questions == (if initial.Some? then initial.value else [])
      ensures currentQid == None && scores == map[] && hasModel == modelLoaded
    {
      questions := if initial.Some? then initial.value else [];
      currentQid := None;
      scores := map[];
      hasModel := modelLoaded;
      asked := {};
    }

    /** `add_question`: appends a record with the generated id `freshId`;
        the generator does not promise that ids are unique. */
    method AddQuestion(question: string, answer: string, category: Option<string>, freshId: string)
      requires Valid()
      requires IsShortUuid(freshId)
      modifies this`questions
      ensures Valid()
      ensures questions == old(questions) + [Question(freshId, question, answer, CategoryOrDefault(category))]
      ensures forall c :: c != "" ==>
                Filter(questions, c) ==
                Filter(old(questions), c) + if c == CategoryOrDefault(category) then [questions[|questions| - 1]] else []
    {
      var q := Question(freshId, question, answer, CategoryOrDefault(category));
      forall c | c != ""
        ensures Filter(questions + [q], c) == Filter(questions, c) + if c == q.category then [q] else []
      {
        FilterAppend(questions, [q], c);
        assert Filter([q], c) == (if c == q.category then [q] else []) + Filter([], c);
      }
      questions := questions + [q];
    }

    /** `list_questions`: with a non-empty category, the records of that
        category in bank order; otherwise the whole bank. */
    function ListQuestions(category: Option<string>): (r: seq<Question>)
      reads this
      ensures category.None? || category.value == "" ==> r == questions
      ensures category.Some? && category.value != "" ==>
                r == Filter(questions, category.value) &&
                forall q :: q in r <==> q in questions && q.category == category.value
    {
      if category.Some? && category.value != "" then Filter(questions, category.value) else questions
    }

    /** `get_question`: selects a question and returns its text. With
        `randomize` any candidate may be chosen; the ghost result `pick` is
        the chosen candidate's position in `ListQuestions(category)`. */
    method GetQuestion(idx: Option<int>, randomize: bool, category: Option<string>)
      returns (r: Result<string>, ghost pick: int)
      requires Valid()
      modifies this`currentQid, this`asked
      ensures Valid()
      ensures old(questions) == [] ==> r == Err(EmptyBank)
      ensures old(questions) != [] && ListQuestions(category) == [] ==> r == Err(EmptyCategory(category))
      ensures old(questions) != [] && ListQuestions(category) != [] && !randomize ==>
                match SelectIndex(|ListQuestions(category)|, idx)
                case Err(e) => r == Err(e)
                case Ok(k) => r.Ok? && pick == k
      ensures old(questions) != [] && ListQuestions(category) != [] && randomize ==> r.Ok?
      ensures r.Err? ==> currentQid == old(currentQid)
      ensures r.Ok? ==>
                var candidates := ListQuestions(category);
                && 0 <= pick < |candidates|
                && currentQid == Some(candidates[pick].id)
                && r.value == candidates[pick].question
                && candidates[pick] in questions
                && (category.Some? && category.value != "" ==> candidates[pick].category == category.value)
    {
      if questions == [] {
        return Err(EmptyBank), 0;
      }
      var candidates := ListQuestions(category);
      if candidates == [] {
        return Err(EmptyCategory(category)), 0;
      }
      var k: nat;
      if randomize {
        k :| 0 <= k < |candidates|;
      } else {
        var selected := SelectIndex(|candidates|, idx);
        if selected.Err? {
          return Err(selected.error), 0;
        }
        k := selected.value;
      }
      var q := candidates[k];
      currentQid := Some(q.id);
      asked := asked + {q.id};
      r, pick := Ok(q.question), k;
    }

    /** `check_answer`: scores `userAnswer` against the selected question's
        reference answer and records the attempt. `similarity` stands for
        the embedding model's cosine similarity of the two answers and only
        matters for the "semantic" method. */
    method CheckAnswer(userAnswer: string, comparison: string, threshold: real, similarity: real)
      returns (r: Result<Verdict>)
      requires Valid()
      modifies this`scores
      ensures Valid()
      ensures old(currentQid).None? ==> r == Err(NoActiveQuestion)
      ensures currentQid.Some? ==>
                match FirstIndexOf(questions, currentQid.value)
                case None => r == Err(QuestionNotFound)
                case Some(i) => r == Grade(comparison, userAnswer, questions[i].answer, hasModel, similarity, threshold)
      ensures r.Err? ==> scores == old(scores)
      ensures r.Ok? ==>
                scores == Record(old(scores), currentQid.value, Attempt(userAnswer, r.value.score, r.value.matched))
    {
      if currentQid.None? {
        return Err(NoActiveQuestion);
      }
      var qid := currentQid.value;
      var at := FirstIndexOf(questions, qid);
      if at.None? {
        return Err(QuestionNotFound);
      }
      var q := questions[at.value];
      r := Grade(comparison, userAnswer, q.answer, hasModel, similarity, threshold);
      if r.Ok? {
        var attempt := Attempt(userAnswer, r.value.score, r.value.matched);
        scores := Record(scores, qid, attempt);
      }
    }

    /** `summary`: the number of attempts, how many were correct, and the
        ratio of the two (0.0 before any attempt). */
    method Summary() returns (report: Report)
      ensures report.total == Tally(scores).total
      ensures report.correct == Tally(scores).correct
      ensures report.correct <= report.total
      ensures report.accuracy == Accuracy(report.correct, report.total)
    {
      var total: nat, correct: nat := 0, 0;
      var rest := scores;
      while rest != map[]
        invariant total + Tally(rest).total == Tally(scores).total
        invariant correct + Tally(rest).correct == Tally(scores).correct
        decreases |rest|
      {
        var k :| k in rest;
        var attempts := rest[k];
        var remaining := rest - {k};
        TallyRemove(rest, k);
        assert |remaining| < |rest| by {
          assert remaining.Keys == rest.Keys - {k};
        }
        total := total + |attempts|;
        correct := correct + CorrectCount(attempts);
        rest := remaining;
      }
      report := Report(total, correct, Accuracy(correct, total));
    }

    /** `load`, without the file: the bank is replaced, the selection and
        the attempt history are kept. */
    method Load(loaded: seq<Question>)
      requires Valid()
      modifies this`questions
      ensures Valid()
      ensures questions == loaded
    {
      questions := loaded;
    }
  }
}
