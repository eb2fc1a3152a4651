/**
 * The qualifying questionnaire (src/components/QualifyingModal.jsx): four
 * multiple-choice questions answered one at a time, then a booking view.
 *
 * A click records the answer at once and starts a 300 ms timer; the timer's
 * callback moves the step on from the step that was current WHEN IT WAS
 * STARTED, not from the step current when it fires. Every timer has the same
 * delay, so timers fire in the order they were started: the model keeps the
 * captured steps of the timers not yet fired as a queue, and firing one is a
 * separate step that the host (the browser's event loop) takes.
 */
module QualifyingFlow {

  /** A question: its answer key and the values of its option buttons. */
  datatype Question = Question(id: string, options: seq<string>)

  const Questions: seq<Question> := [
    Question("revenue_stage", ["pre-revenue", "0-100k", "100k-1m", "1m-5m", "5m+"]),
    Question("biggest_challenge", ["lead_generation", "sales_process", "marketing_attribution", "team_scaling", "full_gtm"]),
    Question("primary_channel", ["outbound", "performance_marketing", "sales_enablement", "full_service"]),
    Question("timeline", ["immediate", "1-3_months", "3-6_months", "exploring"])
  ]

  /** `questions.length`. */
  const N := |Questions|

  /** The answer keys of the questions are pairwise different. */
  lemma IdsDistinct()
    ensures forall i, j :: 0 <= i < N && 0 <= j < N && i != j ==> Questions[i].id != Questions[j].id
  {
  }

  /** The step a timer started at step `captured` sets: the next question, or the booking view after the last. */
  function Advance(captured: nat): (r: nat)
    ensures r <= N
    ensures captured < N ==> r == captured + 1
    ensures captured >= N - 1 ==> r == N
  {
    if captured < N - 1 then captured + 1 else N
  }

  /** Calls the modal makes on its parent's callbacks. */
  datatype Callback = OnSubmit(answers: map<string, string>) | OnClose

  /** What the modal renders. */
  datatype View =
    | Hidden
    | QuestionView(index: nat, number: nat, total: nat)  // "Question {number} of {total}" and `questions[index]`
    | Booking

  /** The state of one mounted modal. */
  class Modal {
    var currentStep: nat
    var answers: map<string, string>
    /** The steps captured by the timers started and not yet fired, oldest first. */
    var pending: seq<nat>

    /**
     * The step is a question index or the booking step; every pending timer
     * was started at the current step or at the one before, oldest first;
     * the answered questions are those before the current step, plus the
     * current one when a timer started at it is still pending; and every
     * answer is one of its question's options.
     */
    ghost predicate Valid()
      reads this
    {
      currentStep <= N
      && (forall k :: 0 <= k < |pending| ==> pending[k] < N)
      && (forall k :: 0 <= k < |pending| ==> pending[k] == currentStep || pending[k] + 1 == currentStep)
      && (forall k, l :: 0 <= k < l < |pending| ==> pending[k] <= pending[l])
      && (forall key :: key in answers ==> exists k :: 0 <= k < N && Questions[k].id == key)
      && (forall k :: 0 <= k < N ==>
            (Questions[k].id in answers <==> k < currentStep || (k == currentStep && k in pending)))
      && (forall k :: 0 <= k < N && Questions[k].id in answers ==> answers[Questions[k].id] in Questions[k].options)
    }

    /** `useState(0)` and `useState({})`, no timer running. */
    constructor ()
      ensures Valid() && currentStep == 0 && answers == map[] && pending == []
    {
      currentStep := 0;
      answers := map[];
      pending := [];
    }

    /**
     * What is rendered: nothing while closed, the current question with the
     * label "Question step+1 of n" while the step is below `n`, the booking
     * view from step `n` on.
     */
    function Render(isOpen: bool): (v: View)
      reads this
      ensures v.Hidden? <==> !isOpen
      ensures v.QuestionView? <==> isOpen && currentStep < N
      ensures v.Booking? <==> isOpen && currentStep >= N
      ensures v.QuestionView? ==> v.index == currentStep && v.number == currentStep + 1 && v.total == N
      ensures v.QuestionView? ==> v.index < N && 1 <= v.number <= v.total
    {
      if !isOpen then Hidden
      else if currentStep < N then QuestionView(currentStep, currentStep + 1, N)
      else Booking
    }

    /** The option button for `option` of the current question is highlighted. */
    predicate Highlighted(option: string)
      reads this
      requires currentStep < N
    {
      Questions[currentStep].id in answers && answers[Questions[currentStep].id] == option
    }

    /**
     * `handleAnswer(questions[currentStep].id, option)`, the click handler of
     * an option button: records the answer and starts a timer that captures
     * the current step.
     */
    method HandleAnswer(option: string)
      requires Valid() && currentStep < N && option in Questions[currentStep].options
      modifies this
      ensures Valid()
      ensures currentStep == old(currentStep) && pending == old(pending) + [old(currentStep)]
      ensures answers == old(answers)[Questions[currentStep].id := option]
      ensures Highlighted(option)
    {
      IdsDistinct();
      answers := answers[Questions[currentStep].id := option];
      pending := pending + [currentStep];
    }

    /**
     * The oldest pending timer fires and sets the step from the step it
     * captured. A timer started before the last advance moves nothing.
     */
    method FireTimer()
      requires Valid() && pending != []
      modifies this
      ensures Valid()
      ensures currentStep == Advance(old(pending[0])) && pending == old(pending[1..]) && answers == old(answers)
      ensures old(currentStep) <= currentStep <= old(currentStep) + 1
    {
      var captured := pending[0];
      assert forall k :: 0 <= k < |pending| ==> captured <= pending[k];
      if captured < N - 1 {
        currentStep := captured + 1;
      } else {
        currentStep := N;
      }
      pending := pending[1..];
      assert forall k :: 0 <= k < |pending| ==> pending[k] == old(pending)[k + 1];
    }

    /**
     * `handleComplete()`, the "book later" button of the booking view:
     * hands every answer to the parent, then closes. By then each question
     * has been answered with one of its options.
     */
    method HandleComplete() returns (calls: seq<Callback>)
      requires Valid() && currentStep >= N
      ensures |calls| == 2 && calls[1] == OnClose && calls[0].OnSubmit?
      ensures calls[0].answers == answers
      ensures forall k :: 0 <= k < N ==>
        Questions[k].id in calls[0].answers && calls[0].answers[Questions[k].id] in Questions[k].options
      ensures forall key :: key in calls[0].answers ==> exists k :: 0 <= k < N && Questions[k].id == key
    {
      calls := [OnSubmit(answers), OnClose];
    }

    /** The backdrop and the close button: only the parent's `onClose`; step and answers are kept. */
    method Dismiss() returns (calls: seq<Callback>)
      ensures calls == [OnClose]
    {
      calls := [OnClose];
    }
  }

  /**
   * Two answers clicked on the first question before its timer fires: the
   * second overwrites the first, and when both timers have fired the modal
   * is on the second question, not the third, because both captured step 0.
   * Between the clicks and the timers the answers already count one more
   * question than the step.
   */
  method QuickDoubleClick(first: string, second: string) returns (step: nat, answers: map<string, string>, answeredBeforeTimers: nat)
    requires first in Questions[0].options && second in Questions[0].options
    ensures answeredBeforeTimers == 1
    ensures step == 1
    ensures answers == map[Questions[0].id := second]
  {
    var modal := new Modal();
    modal.HandleAnswer(first);
    modal.HandleAnswer(second);
    assert modal.answers == map[Questions[0].id := second];
    answeredBeforeTimers := |modal.answers|;
    modal.FireTimer();
    modal.FireTimer();
    step := modal.currentStep;
    answers := modal.answers;
  }

  /**
   * Answering each question in turn, each timer firing before the next
   * click, reaches the booking view, and completing submits exactly the
   * chosen answers, keyed by question.
   */
  method AnswerAll(choices: seq<string>) returns (calls: seq<Callback>, view: View)
    requires |choices| == N
    requires forall k :: 0 <= k < N ==> choices[k] in Questions[k].options
    ensures view == Booking
    ensures |calls| == 2 && calls[0].OnSubmit? && calls[1] == OnClose
    ensures forall k :: 0 <= k < N ==>
      Questions[k].id in calls[0].answers && calls[0].answers[Questions[k].id] == choices[k]
    ensures |calls[0].answers| == N
  {
    IdsDistinct();
    var modal := new Modal();
    var k := 0;
    while k < N
      invariant 0 <= k <= N && modal.Valid()
      invariant modal.currentStep == k && modal.pending == []
      invariant forall j :: 0 <= j < k ==> modal.answers[Questions[j].id] == choices[j]
    {
      modal.HandleAnswer(choices[k]);
      modal.FireTimer();
      k := k + 1;
    }
    view := modal.Render(true);
    calls := modal.HandleComplete();
    assert calls[0].answers.Keys == set j | 0 <= j < N :: Questions[j].id;
    IdsCount();
  }

  /** The answer keys, in question order. */
  function Ids(): (ids: seq<string>)
    ensures |ids| == N && forall j :: 0 <= j < N ==> ids[j] == Questions[j].id
  {
    seq(N, j requires 0 <= j < N => Questions[j].id)
  }

  /** The set of the answer keys has one element per question. */
  lemma IdsCount()
    ensures |set j | 0 <= j < N :: Questions[j].id| == N
  {
    PrefixIdsCount(N);
  }

  /** The keys of the first `b` questions are `b` different keys. */
  lemma PrefixIdsCount(b: nat)
    requires b <= N
    ensures |set j | 0 <= j < b :: Questions[j].id| == b
  {
    IdsDistinct();
    var ids := Ids()[..b];
    assert (set j | 0 <= j < b :: Questions[j].id) == set x | x in ids;
    DistinctCard(ids);
  }

  /**
   * The number of recorded answers is the current step, plus one while a
   * timer started at the current step has not fired: right after an answer
   * the answers run one ahead of the step, and once every timer has fired
   * they equal it.
   */
  lemma AnsweredCount(m: Modal)
    requires m.Valid()
    ensures m.currentStep in m.pending ==> |m.answers| == m.currentStep + 1
    ensures m.currentStep !in m.pending ==> |m.answers| == m.currentStep
  {
    var b := if m.currentStep in m.pending then m.currentStep + 1 else m.currentStep;
    assert b <= N;
    assert m.answers.Keys == set j | 0 <= j < b :: Questions[j].id;
    PrefixIdsCount(b);
  }

  /** A sequence without repetitions has as many distinct elements as it has positions. */
  lemma {:induction false} DistinctCard(s: seq<string>)
    requires forall i, j :: 0 <= i < j < |s| ==> s[i] != s[j]
    ensures |set x | x in s| == |s|
  {
    if s != [] {
      var init, last := s[..|s| - 1], s[|s| - 1];
      DistinctCard(init);
      assert (set x | x in s) == (set x | x in init) + {last};
      assert last !in init;
    }
  }
}
