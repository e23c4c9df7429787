/** The quiz session (`QuizApp`): the loaded questions, the position in them,
    the score, the selected option and which of the two buttons, Submit and
    Next, is on screen. The page itself is not modelled; each method is what
    a click or a load does to this state. */
module QuizSession {
  import opened Wrappers
  import opened QuizParser
  import opened ResultSummary
  import opened QuizReference

  /** The character code `String.fromCharCode(65 + index)` produces: the
      conversion keeps only the low 16 bits. */
  function LetterCode(index: nat): (c: nat)
    ensures c < 0x10000
    ensures index < 26 ==> c == 65 + index
  {
    (65 + index) % 0x10000
  }

  /** `correctAnswer.includes(String.fromCharCode(65 + index))`: some token
      of the key is exactly the one-character letter of the option. */
  predicate IsCorrect(key: seq<string>, index: nat) {
    exists t :: t in key && |t| == 1 && t[0] as int == LetterCode(index)
  }

  /** The letter code is 65 plus the index modulo 2^16, less 2^16 when that
      passes the top of the 16-bit range. */
  lemma LetterCodeWraps(index: nat)
    ensures index % 0x10000 < 0x10000 - 65 ==> LetterCode(index) == 65 + index % 0x10000
    ensures index % 0x10000 >= 0x10000 - 65 ==> LetterCode(index) == 65 + index % 0x10000 - 0x10000
  {
    var q, r := index / 0x10000, index % 0x10000;
    assert 65 + index == q * 0x10000 + (65 + r);
    if r < 0x10000 - 65 {
      assert (q * 0x10000 + (65 + r)) % 0x10000 == 65 + r;
    } else {
      assert 65 + index == (q + 1) * 0x10000 + (65 + r - 0x10000);
      assert ((q + 1) * 0x10000 + (65 + r - 0x10000)) % 0x10000 == 65 + r - 0x10000;
    }
  }

  /** For a key whose tokens are capital letters, as every parsed key is,
      option `index` is graded correct exactly when it is one of the first
      26 options (counting modulo 2^16) and its letter is a token. */
  lemma GradeByLetter(key: seq<string>, index: nat)
    requires LetterTokens(key)
    ensures IsCorrect(key, index) <==>
              index % 0x10000 < 26 && [(65 + index % 0x10000) as char] in key
  {
    LetterCodeWraps(index);
    var r := index % 0x10000;
    if IsCorrect(key, index) {
      var t :| t in key && |t| == 1 && t[0] as int == LetterCode(index);
      assert t[0] in t;
      assert r < 26;
      assert t == [(65 + r) as char];
    }
    if r < 26 && [(65 + r) as char] in key {
      var t := [(65 + r) as char];
      assert t in key && |t| == 1 && t[0] as int == LetterCode(index);
    }
  }

  /** Grading a parsed question: its key came from the answer-key pattern,
      so the letter rule above applies to it. */
  lemma GradeParsedQuestion(content: string, n: nat, index: nat)
    requires ParseQuiz(content).Ok? && n < |ParseQuiz(content).value|
    requires ParseQuiz(content).value[n].correctAnswer.Some?
    ensures var key := ParseQuiz(content).value[n].correctAnswer.value;
            IsCorrect(key, index) <==> index % 0x10000 < 26 && [(65 + index % 0x10000) as char] in key
  {
    ParsedKeysAreLetters(content);
    var q := ParseQuiz(content).value[n];
    assert q in ParseQuiz(content).value;
    GradeByLetter(q.correctAnswer.value, index);
  }

  /** Key `["B"]` marks the second option right and the first wrong; the key
      `["A", ""]` read from "A, C" marks the third option, C, wrong. */
  lemma GradingExamples()
    ensures IsCorrect(["B"], 1) && !IsCorrect(["B"], 0)
    ensures IsCorrect(["A", ""], 0) && !IsCorrect(["A", ""], 2)
  {
    GradeByLetter(["B"], 0);
    GradeByLetter(["B"], 1);
    GradeByLetter(["A", ""], 0);
    GradeByLetter(["A", ""], 2);
    assert ['B'] in ["B"];
    assert ['A'] in ["A", ""];
  }

  /** What a click on Submit did. */
  datatype CheckOutcome =
    | NoSelection          // nothing selected: the click is ignored
    | NoAnswerKey          // the question has no key: reading it throws
    | Graded(correct: bool)

  class QuizApp {
    var questions: seq<Question>
    var currentQuestionIndex: nat
    var score: nat
    var selectedAnswer: Option<nat>
    /** Whether the Submit button is displayed. */
    var submitShown: bool
    /** Whether the Next button is displayed. */
    var nextShown: bool

    /** A question and its options are on screen. */
    predicate OnQuestion()
      reads this
    {
      submitShown || nextShown
    }

    /** The state the session keeps between clicks: the index stays within
        the questions, at most one button shows and only with a question on
        screen, a selection names one of that question's options, and the
        score counts at most the questions answered so far (including the
        current one once it is graded). */
    ghost predicate Valid()
      reads this
      ensures Valid() ==> score <= |questions|
    {
      && currentQuestionIndex <= |questions|
      && (submitShown ==> !nextShown)
      && (OnQuestion() ==> currentQuestionIndex < |questions|)
      && (OnQuestion() && selectedAnswer.Some? ==>
            selectedAnswer.value < |questions[currentQuestionIndex].options|)
      && score <= currentQuestionIndex + (if nextShown then 1 else 0)
    }

    /** The current question is on screen, ready to be answered. */
    ghost predicate ShowingQuestion()
      reads this
    {
      currentQuestionIndex < |questions| && submitShown && !nextShown && selectedAnswer.None?
    }

    /** The completion screen is on: both buttons hidden. */
    ghost predicate ShowingResult()
      reads this
    {
      currentQuestionIndex >= |questions| && !submitShown && !nextShown
    }

    constructor()
      ensures questions == [] && currentQuestionIndex == 0 && score == 0 && selectedAnswer.None?
      ensures !submitShown && !nextShown
      ensures Valid()
    {
      questions := [];
      currentQuestionIndex := 0;
      score := 0;
      selectedAnswer := None;
      submitShown := false;
      nextShown := false;
    }

    /** `loadQuizFile` once the file has been fetched: an empty file name
        does nothing; a failed fetch (`None`) or a parse error is caught and
        leaves the session as it was; otherwise the parsed questions replace
        the old ones and the first is displayed. */
    method LoadQuizFile(filename: string, response: Option<string>) returns (done: Option<Summary>)
      requires Valid()
      modifies this
      ensures Valid()
      ensures filename == [] || response.None? || ParseQuiz(response.value).Err? ==>
                unchanged(this) && done.None?
      ensures filename != [] && response.Some? && ParseQuiz(response.value).Ok? ==>
                && questions == ParseQuiz(response.value).value
                && currentQuestionIndex == 0 && score == 0
                && (if questions == [] then
                      ShowingResult() && selectedAnswer == old(selectedAnswer) && done == Some(Summarize(0, 0))
                    else ShowingQuestion() && done.None?)
    {
      done := None;
      if filename == [] {
        return;
      }
      match response
      case None =>
        return;
      case Some(content) =>
        var parsed := ParseMarkdownQuiz(content);
        match parsed
        case Err(_) =>
          return;
        case Ok(qs) =>
          done := StartQuiz(qs);
    }

    /** The success path of `loadQuizFile`: the parsed questions replace the
        old ones, index and score restart at 0, and the first question (or,
        for an empty quiz, the result) is displayed. */
    method StartQuiz(qs: seq<Question>) returns (done: Option<Summary>)
      modifies this
      ensures Valid()
      ensures questions == qs && currentQuestionIndex == 0 && score == 0
      ensures qs == [] ==> ShowingResult() && selectedAnswer == old(selectedAnswer) && done == Some(Summarize(0, 0))
      ensures qs != [] ==> ShowingQuestion() && done.None?
    {
      questions := qs;
      currentQuestionIndex := 0;
      score := 0;
      done := DisplayQuestion();
    }

    /** `displayQuestion`: past the last question, the completion screen and
        its summary; otherwise the current question with Submit shown, Next
        hidden and the selection cleared. */
    method DisplayQuestion() returns (done: Option<Summary>)
      requires currentQuestionIndex <= |questions| && score <= currentQuestionIndex
      modifies this
      ensures Valid()
      ensures questions == old(questions) && currentQuestionIndex == old(currentQuestionIndex)
      ensures score == old(score)
      ensures old(currentQuestionIndex) >= |questions| ==>
                ShowingResult() && selectedAnswer == old(selectedAnswer)
                && done == Some(Summarize(score, |questions|))
      ensures old(currentQuestionIndex) < |questions| ==> ShowingQuestion() && done.None?
    {
      if currentQuestionIndex >= |questions| {
        var summary := ShowQuizComplete();
        return Some(summary);
      }
      submitShown := true;
      nextShown := false;
      selectedAnswer := None;
      return None;
    }

    /** `selectAnswer`: clicking option `index` of the question on screen
        makes it the one selection. */
    method SelectAnswer(index: nat)
      requires Valid() && OnQuestion()
      requires index < |questions[currentQuestionIndex].options|
      modifies this
      ensures Valid()
      ensures selectedAnswer == Some(index)
      ensures questions == old(questions) && currentQuestionIndex == old(currentQuestionIndex)
      ensures score == old(score) && submitShown == old(submitShown) && nextShown == old(nextShown)
    {
      selectedAnswer := Some(index);
    }

    /** `checkAnswer`, on a click on Submit: without a selection nothing
        happens; a question without key throws before changing anything;
        otherwise the score goes up by one exactly when the selected letter
        is in the key, and Submit gives way to Next. */
    method CheckAnswer() returns (outcome: CheckOutcome)
      requires Valid() && submitShown
      modifies this
      ensures Valid()
      ensures old(selectedAnswer).None? ==> outcome == NoSelection && unchanged(this)
      ensures old(selectedAnswer).Some? && old(questions[currentQuestionIndex].correctAnswer).None? ==>
                outcome == NoAnswerKey && unchanged(this)
      ensures old(selectedAnswer).Some? && old(questions[currentQuestionIndex].correctAnswer).Some? ==>
                var correct := IsCorrect(old(questions[currentQuestionIndex].correctAnswer).value, old(selectedAnswer).value);
                && outcome == Graded(correct)
                && score == old(score) + (if correct then 1 else 0)
                && !submitShown && nextShown
                && questions == old(questions) && currentQuestionIndex == old(currentQuestionIndex)
                && selectedAnswer == old(selectedAnswer)
    {
      match selectedAnswer
      case None =>
        return NoSelection;
      case Some(index) =>
        var question := questions[currentQuestionIndex];
        match question.correctAnswer
        case None =>
          return NoAnswerKey;
        case Some(key) =>
          var isCorrect := IsCorrect(key, index);
          if isCorrect {
            score := score + 1;
          }
          submitShown := false;
          nextShown := true;
          return Graded(isCorrect);
    }

    /** `nextQuestion`, on a click on Next: move on and display. */
    method NextQuestion() returns (done: Option<Summary>)
      requires Valid() && nextShown
      modifies this
      ensures Valid()
      ensures questions == old(questions) && score == old(score)
      ensures currentQuestionIndex == old(currentQuestionIndex) + 1
      ensures currentQuestionIndex == |questions| ==>
                ShowingResult() && selectedAnswer == old(selectedAnswer) && done == Some(Summarize(score, |questions|))
      ensures currentQuestionIndex < |questions| ==> ShowingQuestion() && done.None?
    {
      currentQuestionIndex := currentQuestionIndex + 1;
      done := DisplayQuestion();
    }

    /** The result part of `showQuizComplete`: the summary of the score over
        all questions; both buttons hidden. */
    method ShowQuizComplete() returns (summary: Summary)
      requires score <= |questions|
      modifies this
      ensures questions == old(questions) && currentQuestionIndex == old(currentQuestionIndex)
      ensures score == old(score) && selectedAnswer == old(selectedAnswer)
      ensures summary == Summarize(score, |questions|)
      ensures !submitShown && !nextShown
    {
      var totalQuestions := |questions|;
      var percentage := Percentage(score, totalQuestions);
      var hasPassed := percentage.Some? && percentage.value >= PassingPercentage;
      summary := Summary(score, totalQuestions, percentage, hasPassed);
      submitShown := false;
      nextShown := false;
    }

    /** `resetQuiz` ("Try Again"): the same questions from the start, with a
        score of zero. */
    method ResetQuiz() returns (done: Option<Summary>)
      requires Valid()
      modifies this
      ensures Valid()
      ensures questions == old(questions) && currentQuestionIndex == 0 && score == 0
      ensures questions == [] ==> ShowingResult() && selectedAnswer == old(selectedAnswer) && done == Some(Summarize(0, 0))
      ensures questions != [] ==> ShowingQuestion() && done.None?
    {
      currentQuestionIndex := 0;
      score := 0;
      done := DisplayQuestion();
    }

    /** `chooseNewQuiz` ("Choose Another Quiz"): no questions, index and score
        zero, both buttons hidden; the selection is left as it was. */
    method ChooseNewQuiz()
      requires Valid()
      modifies this
      ensures Valid()
      ensures questions == [] && currentQuestionIndex == 0 && score == 0
      ensures !submitShown && !nextShown && selectedAnswer == old(selectedAnswer)
    {
      questions := [];
      currentQuestionIndex := 0;
      score := 0;
      submitShown := false;
      nextShown := false;
    }
  }
}
