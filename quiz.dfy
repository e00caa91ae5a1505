/** The quiz page of src/app/quiz/page.tsx as a state machine over its four pieces of React
    state. React applies the setters of one handler together, so each handler is one atomic
    transition. The hand-off of the finished answers to the result page (a localStorage write
    followed by navigation) is an output of the transition. */
module Quiz {
  import opened Types

  /** The four useState hooks: the 1-based question number, the answers by question number,
      the selected answer id, and whether navigation to the result page has started. */
  datatype QuizState = QuizState(
    currentQuestion: int,
    answers: map<int, Answer>,
    selectedAnswer: Option<string>,
    isNavigating: bool)

  /** The initial state of the hooks. */
  const Initial := QuizState(1, map[], None, false)

  /** The question catalog numbers its questions 1..N in order. */
  predicate NumberedQuestions(questions: seq<Question>)
  {
    |questions| > 0 && forall i :: 0 <= i < |questions| ==> questions[i].id == i + 1
  }

  function QuestionId(q: Question): int
  {
    q.id
  }

  function AnswerId(a: Answer): string
  {
    a.id
  }

  /** `questions.find((q) => q.id === id)`. */
  function FindQuestion(questions: seq<Question>, id: int): Option<Question>
  {
    Find(questions, QuestionId, id)
  }

  /** `question.answers.find((a) => a.id === id)`. */
  function FindAnswer(answers: seq<Answer>, id: string): Option<Answer>
  {
    Find(answers, AnswerId, id)
  }

  /** The keys of m are exactly the question numbers 1..n. */
  ghost predicate KeysUpto<V>(m: map<int, V>, n: int)
  {
    forall k :: k in m <==> 1 <= k <= n
  }

  /** The states the page can be in: while answering, exactly the earlier questions are
      answered; once navigating, the last question is current and all are answered; every
      stored answer is an answer of its question. */
  ghost predicate Inv(questions: seq<Question>, s: QuizState)
  {
    && NumberedQuestions(questions)
    && 1 <= s.currentQuestion <= |questions|
    && (!s.isNavigating ==> KeysUpto(s.answers, s.currentQuestion - 1))
    && (s.isNavigating ==> s.currentQuestion == |questions| && KeysUpto(s.answers, |questions|))
    && (forall k :: k in s.answers ==> 1 <= k <= |questions| && s.answers[k] in questions[k - 1].answers)
  }

  /** `answerId || selectedAnswer`: an empty id is falsy. */
  function ChosenId(s: QuizState, answerId: Option<string>): Option<string>
  {
    if answerId.Some? && answerId.value != "" then answerId else s.selectedAnswer
  }

  /** handleNext gets past all three early returns. */
  predicate Accepts(questions: seq<Question>, s: QuizState, answerId: Option<string>)
  {
    var id := ChosenId(s, answerId);
    && !s.isNavigating
    && FindQuestion(questions, s.currentQuestion).Some?
    && id.Some? && id.value != ""
    && FindAnswer(FindQuestion(questions, s.currentQuestion).value.answers, id.value).Some?
  }

  /** The answer an accepted call stores. */
  function AcceptedAnswer(questions: seq<Question>, s: QuizState, answerId: Option<string>): Answer
    requires Accepts(questions, s, answerId)
  {
    FindAnswer(FindQuestion(questions, s.currentQuestion).value.answers, ChosenId(s, answerId).value).value
  }

  /** handleNext(answerId): the new state and the answers handed to the result page, if any. */
  function Next(questions: seq<Question>, s: QuizState, answerId: Option<string>): (QuizState, Option<map<int, Answer>>)
  {
    if !Accepts(questions, s, answerId) then (s, None)
    else
      var newAnswers := s.answers[s.currentQuestion := AcceptedAnswer(questions, s, answerId)];
      if s.currentQuestion < |questions| then (QuizState(s.currentQuestion + 1, newAnswers, None, false), None)
      else (QuizState(s.currentQuestion, newAnswers, None, true), Some(newAnswers))
  }

  /** handleAnswerSelect(answerId): setSelectedAnswer(answerId), then handleNext(answerId); when
      handleNext accepts, its setSelectedAnswer(null) is the later of the two and wins. */
  function Select(questions: seq<Question>, s: QuizState, answerId: string): (QuizState, Option<map<int, Answer>>)
  {
    if Accepts(questions, s, Some(answerId)) then Next(questions, s, Some(answerId))
    else (s.(selectedAnswer := Some(answerId)), None)
  }

  // ---------------------------------------------------------------------------------------
  // The page as a class whose fields the handlers update.

  class QuizPage {
    const questions: seq<Question>
    var currentQuestion: int
    var answers: map<int, Answer>
    var selectedAnswer: Option<string>
    var isNavigating: bool

    function State(): QuizState
      reads this
    {
      QuizState(currentQuestion, answers, selectedAnswer, isNavigating)
    }

    ghost predicate Valid()
      reads this
    {
      Inv(questions, State())
    }

    constructor (questions: seq<Question>)
      requires NumberedQuestions(questions)
      ensures this.questions == questions
      ensures State() == Initial
      ensures Valid()
    {
      this.questions := questions;
      currentQuestion := 1;
      answers := map[];
      selectedAnswer := None;
      isNavigating := false;
      new;
    }

    method HandleNext(answerId: Option<string>) returns (handoff: Option<map<int, Answer>>)
      requires Valid()
      modifies this
      ensures (State(), handoff) == Next(questions, old(State()), answerId)
      ensures Valid()
    {
      NextPreservesInv(questions, State(), answerId);
      handoff := None;
      if isNavigating {
        return;
      }
      var selectedAnswerId := if answerId.Some? && answerId.value != "" then answerId else selectedAnswer;
      var question := FindQuestion(questions, currentQuestion);
      if question.None? || selectedAnswerId.None? || selectedAnswerId.value == "" {
        return;
      }
      var answer := FindAnswer(question.value.answers, selectedAnswerId.value);
      if answer.None? {
        return;
      }
      var newAnswers := answers[currentQuestion := answer.value];
      answers := newAnswers;
      selectedAnswer := None;
      if currentQuestion < |questions| {
        currentQuestion := currentQuestion + 1;
      } else {
        isNavigating := true;
        handoff := Some(newAnswers);
      }
    }

    method HandleAnswerSelect(answerId: string) returns (handoff: Option<map<int, Answer>>)
      requires Valid()
      modifies this
      ensures (State(), handoff) == Select(questions, old(State()), answerId)
      ensures Valid()
    {
      // setSelectedAnswer(answerId) is queued first; handleNext reads the state of the same
      // render, and its own setSelectedAnswer(null), queued later, wins when it gets that far.
      var before := State();
      AcceptChangesState(questions, before, Some(answerId));
      handoff := HandleNext(Some(answerId));
      if State() == before {
        selectedAnswer := Some(answerId);
      }
    }
  }

  // ---------------------------------------------------------------------------------------
  // Properties of the transitions.

  /** The initial state is a valid one. */
  lemma InitialInv(questions: seq<Question>)
    requires NumberedQuestions(questions)
    ensures Inv(questions, Initial)
  {
  }

  /** handleNext keeps the page in a valid state. */
  lemma NextPreservesInv(questions: seq<Question>, s: QuizState, answerId: Option<string>)
    requires Inv(questions, s)
    ensures Inv(questions, Next(questions, s, answerId).0)
  {
    if Accepts(questions, s, answerId) {
      var q := FindQuestion(questions, s.currentQuestion).value;
      assert q == questions[s.currentQuestion - 1];
      var t := Next(questions, s, answerId).0;
      assert KeysUpto(t.answers, s.currentQuestion);
    }
  }

  /** handleNext changes the state exactly when it accepts the answer. */
  lemma AcceptChangesState(questions: seq<Question>, s: QuizState, answerId: Option<string>)
    requires Inv(questions, s)
    ensures Next(questions, s, answerId).0 != s <==> Accepts(questions, s, answerId)
  {
    if Accepts(questions, s, answerId) {
      assert s.currentQuestion !in s.answers;
      assert s.currentQuestion in Next(questions, s, answerId).0.answers;
    }
  }

  /** Once navigating, handleNext changes nothing and hands nothing off. */
  lemma NavigatingIsNoop(questions: seq<Question>, s: QuizState, answerId: Option<string>)
    requires s.isNavigating
    ensures Next(questions, s, answerId) == (s, None)
  {
  }

  /** With no usable answer id, or one that is not an answer of the current question,
      handleNext changes nothing. */
  lemma RejectIsNoop(questions: seq<Question>, s: QuizState, answerId: Option<string>)
    requires Inv(questions, s)
    requires ChosenId(s, answerId).None? || ChosenId(s, answerId).value == ""
             || forall a :: a in questions[s.currentQuestion - 1].answers ==> a.id != ChosenId(s, answerId).value
    ensures Next(questions, s, answerId) == (s, None)
  {
    if FindQuestion(questions, s.currentQuestion).Some? {
      assert FindQuestion(questions, s.currentQuestion).value == questions[s.currentQuestion - 1];
    }
  }

  /** An accepted answer is stored under the current question only, the selection is cleared,
      and the page moves to the next question or, on the last one, starts navigating and
      hands off the answers to all N questions. */
  lemma AcceptStores(questions: seq<Question>, s: QuizState, answerId: Option<string>, a: Answer)
    requires Inv(questions, s)
    requires !s.isNavigating
    requires ChosenId(s, answerId).Some? && ChosenId(s, answerId).value != ""
    requires FindAnswer(questions[s.currentQuestion - 1].answers, ChosenId(s, answerId).value) == Some(a)
    ensures var (t, handoff) := Next(questions, s, answerId);
      && t.answers == s.answers[s.currentQuestion := a]
      && s.currentQuestion !in s.answers
      && a in questions[s.currentQuestion - 1].answers && a.id == ChosenId(s, answerId).value
      && t.selectedAnswer.None?
      && (s.currentQuestion < |questions| ==>
            t.currentQuestion == s.currentQuestion + 1 && !t.isNavigating && handoff.None?)
      && (s.currentQuestion == |questions| ==>
            t.currentQuestion == s.currentQuestion && t.isNavigating
            && handoff == Some(t.answers) && KeysUpto(t.answers, |questions|))
  {
    assert FindQuestion(questions, s.currentQuestion).value == questions[s.currentQuestion - 1];
    NextPreservesInv(questions, s, answerId);
  }

  /** handleAnswerSelect keeps the page valid; a rejected selection only records the id. */
  lemma SelectPreservesInv(questions: seq<Question>, s: QuizState, answerId: string)
    requires Inv(questions, s)
    ensures Inv(questions, Select(questions, s, answerId).0)
    ensures !Accepts(questions, s, Some(answerId)) ==>
              Select(questions, s, answerId) == (s.(selectedAnswer := Some(answerId)), None)
  {
    NextPreservesInv(questions, s, Some(answerId));
  }

  // ---------------------------------------------------------------------------------------
  // A whole quiz.

  /** Clicking the answers picks[0], picks[1], ... in turn: the final state and the last
      hand-off. */
  function Run(questions: seq<Question>, s: QuizState, picks: seq<string>): (QuizState, Option<map<int, Answer>>)
  {
    if picks == [] then (s, None)
    else
      Select(questions, Run(questions, s, picks[..|picks| - 1]).0, picks[|picks| - 1])
  }

  /** Pick i names an answer of question i + 1. */
  ghost predicate ValidPicks(questions: seq<Question>, picks: seq<string>)
  {
    && |picks| <= |questions|
    && forall i :: 0 <= i < |picks| ==> picks[i] != "" && FindAnswer(questions[i].answers, picks[i]).Some?
  }

  /** The state after the valid picks `picks`: the first |picks| questions hold the picked
      answers, nothing is selected, and the page is on the next question, or navigating after
      the last one. */
  ghost predicate AfterPicks(questions: seq<Question>, picks: seq<string>, t: QuizState)
    requires ValidPicks(questions, picks)
  {
    && Inv(questions, t)
    && KeysUpto(t.answers, |picks|)
    && (forall k :: 1 <= k <= |picks| ==> t.answers[k] == FindAnswer(questions[k - 1].answers, picks[k - 1]).value)
    && t.selectedAnswer.None?
    && (|picks| < |questions| ==> t.currentQuestion == |picks| + 1 && !t.isNavigating)
    && (|picks| == |questions| ==> t.isNavigating)
  }

  /** One more valid pick on a page that is waiting for question n is accepted and extends
      the picks by one. */
  lemma PickStep(questions: seq<Question>, picks: seq<string>, s: QuizState)
    requires NumberedQuestions(questions)
    requires ValidPicks(questions, picks) && |picks| > 0
    requires var n := |picks|;
      && Inv(questions, s) && !s.isNavigating && s.currentQuestion == n && s.selectedAnswer.None?
      && KeysUpto(s.answers, n - 1)
      && forall k :: 1 <= k < n ==> s.answers[k] == FindAnswer(questions[k - 1].answers, picks[k - 1]).value
    ensures AfterPicks(questions, picks, Select(questions, s, picks[|picks| - 1]).0)
    ensures |picks| == |questions| ==>
              Select(questions, s, picks[|picks| - 1]).1 == Some(Select(questions, s, picks[|picks| - 1]).0.answers)
  {
    var n := |picks|;
    var id := picks[n - 1];
    assert id != "" && FindAnswer(questions[n - 1].answers, id).Some?;
    var a := FindAnswer(questions[n - 1].answers, id).value;
    FindQuestionNumbered(questions, n);
    assert ChosenId(s, Some(id)) == Some(id);
    assert Accepts(questions, s, Some(id));
    AcceptStores(questions, s, Some(id), a);
    NextPreservesInv(questions, s, Some(id));
    assert Select(questions, s, id) == Next(questions, s, Some(id));
    StoredPicks(questions, picks, s.answers, a, Select(questions, s, id).0.answers);
  }

  /** Storing the n-th pick's answer under n extends the picked answers of 1..n-1 to 1..n. */
  lemma StoredPicks(questions: seq<Question>, picks: seq<string>, answers: map<int, Answer>, a: Answer,
                    stored: map<int, Answer>)
    requires ValidPicks(questions, picks) && |picks| > 0
    requires a == FindAnswer(questions[|picks| - 1].answers, picks[|picks| - 1]).value
    requires KeysUpto(answers, |picks| - 1)
    requires forall k :: 1 <= k < |picks| ==> answers[k] == FindAnswer(questions[k - 1].answers, picks[k - 1]).value
    requires stored == answers[|picks| := a]
    ensures KeysUpto(stored, |picks|)
    ensures forall k :: 1 <= k <= |picks| ==> stored[k] == FindAnswer(questions[k - 1].answers, picks[k - 1]).value
  {
  }

  /** After the first n valid picks from the initial state, AfterPicks holds. */
  lemma {:induction false} RunProgress(questions: seq<Question>, picks: seq<string>)
    requires NumberedQuestions(questions)
    requires ValidPicks(questions, picks)
    requires |picks| > 0
    ensures AfterPicks(questions, picks, Run(questions, Initial, picks).0)
    ensures |picks| == |questions| ==> Run(questions, Initial, picks).1 == Some(Run(questions, Initial, picks).0.answers)
  {
    var n := |picks|;
    var prefix := picks[..n - 1];
    var s := Run(questions, Initial, prefix).0;
    assert ValidPicks(questions, prefix);
    if n == 1 {
      InitialInv(questions);
    } else {
      RunProgress(questions, prefix);
      assert AfterPicks(questions, prefix, s);
    }
    PickStep(questions, picks, s);
  }

  /** In a numbered catalog, question n is found at index n - 1. */
  lemma FindQuestionNumbered(questions: seq<Question>, n: int)
    requires NumberedQuestions(questions)
    requires 1 <= n <= |questions|
    ensures FindQuestion(questions, n) == Some(questions[n - 1])
  {
  }

  /** Answering all N questions with valid picks ends navigating, and the last click hands off
      the N picked answers. */
  lemma CompleteRunHandsOff(questions: seq<Question>, picks: seq<string>)
    requires NumberedQuestions(questions)
    requires ValidPicks(questions, picks)
    requires |picks| == |questions|
    ensures var (t, handoff) := Run(questions, Initial, picks);
      && t.isNavigating
      && handoff == Some(t.answers)
      && KeysUpto(t.answers, |questions|)
      && forall k :: 1 <= k <= |questions| ==> t.answers[k] == FindAnswer(questions[k - 1].answers, picks[k - 1]).value
  {
    RunProgress(questions, picks);
  }
}
