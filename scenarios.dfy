/** Short sessions replayed against the contracts of `InterviewPractice`:
    every assertion below follows from the method specifications alone. */
module Scenarios {
  import opened Errors
  import opened Bank
  import opened Grading
  import opened Scores
  import opened Practice

  /** Answering before any question was asked fails. */
  method AnswerBeforeAsking() {
    var session := new InterviewPractice(None, false);
    var early := session.CheckAnswer("a guess", "exact", DefaultThreshold, 0.0);
    assert early == Err(NoActiveQuestion);
  }

  /** An empty bank, and a category nobody uses, have no candidates. */
  method NothingToAsk() {
    var session := new InterviewPractice(Some([]), false);
    var empty, _ := session.GetQuestion(Some(0), false, None);
    assert empty == Err(EmptyBank);
    session.AddQuestion("What is a hash map?", "A key-value store", Some("data-structures"), "0a1b2c3d");
    var missing, _ := session.GetQuestion(None, true, Some("nonexistent"));
    assert missing == Err(EmptyCategory(Some("nonexistent")));
    assert session.currentQid == None;
  }

  /** Positions count from the front, or from the back when negative. */
  method SelectByPosition(first: Question, second: Question) {
    var session := new InterviewPractice(Some([first, second]), false);
    var last, _ := session.GetQuestion(Some(-1), false, None);
    assert last == Ok(second.question);
    assert session.currentQid == Some(second.id);
    var beyond, _ := session.GetQuestion(Some(-3), false, None);
    assert beyond == Err(IndexOutOfRange);
    var tooFar, _ := session.GetQuestion(Some(2), false, None);
    assert tooFar == Err(InvalidIndex);
    assert session.currentQid == Some(second.id);
  }

  /** A question whose reference answer and a paraphrase of it do not
      contain each other, as `HashMapExample` shows for the hash-map
      question: "substring" rejects the paraphrase and "exact" accepts the
      reference; without an embedding model "semantic" fails and records
      nothing. */
  method GradeParaphrase(question: string, reference: string, paraphrase: string)
    requires !SubstringMatch(paraphrase, reference)
  {
    var q := Question("0a1b2c3d", question, reference, "data-structures");
    assert FirstIndexOf([q], q.id) == Some(0);
    assert Grade("substring", paraphrase, reference, false, 0.0, DefaultThreshold) == Ok(Verdict(false, 0.0));
    assert Grade("exact", reference, reference, false, 0.0, DefaultThreshold) == Ok(Verdict(true, 1.0));
    assert Grade("semantic", reference, reference, false, 1.0, DefaultThreshold) == Err(ModelUnavailable);

    var session := new InterviewPractice(Some([q]), false);
    var shown, _ := session.GetQuestion(Some(0), false, None);
    assert shown == Ok(question) && session.currentQid == Some(q.id);

    var first := session.CheckAnswer(paraphrase, "substring", DefaultThreshold, 0.0);
    assert session.questions == [q] && session.currentQid == Some(q.id);
    assert first == Ok(Verdict(false, 0.0));
    var second := session.CheckAnswer(reference, "exact", DefaultThreshold, 0.0);
    assert session.questions == [q] && session.currentQid == Some(q.id);
    assert second == Ok(Verdict(true, 1.0));
    ghost var before := session.scores;
    var semantic := session.CheckAnswer(reference, "semantic", DefaultThreshold, 1.0);
    assert semantic == Err(ModelUnavailable) && session.scores == before;
  }

  /** One wrong and one right attempt at the same question tally to two
      attempts with one correct. */
  lemma TallyOfTwoAttempts(qid: string, wrong: Attempt, right: Attempt)
    requires !wrong.result && right.result
    ensures Tally(Record(Record(map[], qid, wrong), qid, right)) == Counts(2, 1)
  {
    var empty: History := map[];
    var once := Record(empty, qid, wrong);
    var twice := Record(once, qid, right);
    assert twice.Keys == {qid};
    assert twice[qid] == [wrong, right];
    assert CorrectCount([wrong, right]) == 1 by {
      assert [wrong, right][1..] == [right];
    }
    TallySingle(twice, qid);
  }

  /** After one wrong and one right answer the summary reports two
      attempts, one correct, accuracy one half. */
  method SummaryOfTwoAttempts(question: string, reference: string, wrongAnswer: string)
    requires !ExactMatch(wrongAnswer, reference)
  {
    var q := Question("0a1b2c3d", question, reference, "general");
    ghost var wrong, right := Attempt(wrongAnswer, 0.0, false), Attempt(reference, 1.0, true);
    TallyOfTwoAttempts(q.id, wrong, right);
    assert FirstIndexOf([q], q.id) == Some(0);
    assert Grade("exact", wrongAnswer, reference, false, 0.0, DefaultThreshold) == Ok(Verdict(false, 0.0));
    assert Grade("exact", reference, reference, false, 0.0, DefaultThreshold) == Ok(Verdict(true, 1.0));

    var session := new InterviewPractice(Some([q]), false);
    var shown, _ := session.GetQuestion(Some(0), false, None);
    assert session.currentQid == Some(q.id);
    var first := session.CheckAnswer(wrongAnswer, "exact", DefaultThreshold, 0.0);
    assert session.questions == [q] && session.currentQid == Some(q.id);
    assert first == Ok(Verdict(false, 0.0));
    var second := session.CheckAnswer(reference, "exact", DefaultThreshold, 0.0);
    assert second == Ok(Verdict(true, 1.0));
    assert session.scores == Record(Record(map[], q.id, wrong), q.id, right);

    var report := session.Summary();
    assert report.total == 2 && report.correct == 1;
    assert report.accuracy == 0.5;
  }
}
