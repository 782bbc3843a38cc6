/**
 * The question loop of `main`: for each question the user's reply is
 * compared with the key letter, without regard to case; a hit scores one
 * point, a miss shows the correct option.
 *
 * The replies that `input()` would read are a parameter, one per question.
 * Printing and the pauses between questions are left out.
 */
module Session {
  import opened Wrappers
  import opened Chars
  import opened QuizData

  /** What is shown after a reply: the positive acknowledgment, or the correct answer. */
  datatype Feedback = Right | Wrong(correction: string)

  /** The state after one question: the running score and what was shown. */
  datatype Graded = Graded(score: nat, feedback: Feedback)

  /** The IndexError the loop raises at question `question` (0-based). */
  datatype SessionError = IndexError(question: nat)

  /** The final tally `score / max_score` and the feedback to every question. */
  datatype Report = Report(score: nat, maxScore: nat, feedback: seq<Feedback>)

  predicate AllNonEmpty(options: seq<string>) {
    forall k :: 0 <= k < |options| ==> options[k] != []
  }

  /** The index of the first option whose first character is exactly `key`, or `|options|`. */
  function FirstWithKey(options: seq<string>, key: char): (i: nat)
    requires AllNonEmpty(options)
    ensures i <= |options|
    ensures forall k :: 0 <= k < i ==> options[k][0] != key
    ensures i < |options| ==> options[i][0] == key
  {
    if options == [] then 0
    else if options[0][0] == key then 0
    else 1 + FirstWithKey(options[1..], key)
  }

  /**
   * The answer shown after a miss: the first option that starts with the
   * key (case-sensitive), or the bare key when no option does.
   */
  function Correction(options: seq<string>, key: char): (shown: string)
    requires AllNonEmpty(options)
    ensures shown == [key] || shown in options
    ensures shown != [key] ==> shown[0] == key
    ensures (exists k :: 0 <= k < |options| && options[k][0] == key) ==> shown == options[FirstWithKey(options, key)]
    ensures (forall k :: 0 <= k < |options| ==> options[k][0] != key) ==> shown == [key]
  {
    var i := FirstWithKey(options, key);
    if i < |options| then options[i] else [key]
  }

  /**
   * One question: reply `user` against key `key` with options `options`.
   * None is the IndexError of `answer[0]` on an empty option, which the
   * correction lookup evaluates for every option.
   */
  function Step(score: nat, user: string, key: char, options: seq<string>): (r: Option<Graded>)
    ensures Matches(user, key) ==> r == Some(Graded(score + 1, Right))
    ensures !Matches(user, key) ==> (r.Some? <==> AllNonEmpty(options))
    ensures !Matches(user, key) && r.Some? ==>
      var i := FirstWithKey(options, key);
      r.value == Graded(score, Wrong(if i < |options| then options[i] else [key]))
  {
    if Matches(user, key) then Some(Graded(score + 1, Right))
    else if AllNonEmpty(options) then Some(Graded(score, Wrong(Correction(options, key))))
    else None
  }

  /** Whether question `i` raises: its option group or its key is missing, or a miss meets an empty option. */
  predicate QuestionFails(quiz: Quiz, replies: seq<string>, i: nat)
    requires i < |replies|
    ensures i < |quiz.options| && i < |quiz.keys| ==>
      (QuestionFails(quiz, replies, i) <==> Step(0, replies[i], quiz.keys[i], quiz.options[i]).None?)
  {
    || i >= |quiz.options|
    || i >= |quiz.keys|
    || (!Matches(replies[i], quiz.keys[i]) && !AllNonEmpty(quiz.options[i]))
  }

  /** The number of the first `n` questions whose reply matches the key. */
  function CountCorrect(keys: seq<char>, replies: seq<string>, n: nat): (c: nat)
    requires n <= |keys| && n <= |replies|
    ensures c <= n
  {
    if n == 0 then 0
    else CountCorrect(keys, replies, n - 1) + (if Matches(replies[n - 1], keys[n - 1]) then 1 else 0)
  }

  /** The indices among the first `n` whose reply matches the key. */
  function Hits(keys: seq<char>, replies: seq<string>, n: nat): set<nat>
    requires n <= |keys| && n <= |replies|
  {
    set i: nat | i < n && Matches(replies[i], keys[i])
  }

  /** Question `n - 1` adds one hit exactly when its reply matches. */
  lemma HitsStep(keys: seq<char>, replies: seq<string>, n: nat)
    requires 0 < n <= |keys| && n <= |replies|
    ensures |Hits(keys, replies, n)| == |Hits(keys, replies, n - 1)| + (if Matches(replies[n - 1], keys[n - 1]) then 1 else 0)
  {
    var before, now := Hits(keys, replies, n - 1), Hits(keys, replies, n);
    if Matches(replies[n - 1], keys[n - 1]) {
      assert now == before + {n - 1};
    } else {
      assert now == before;
    }
  }

  /** The score counts the questions answered correctly. */
  lemma {:induction false} CountCorrectIsSize(keys: seq<char>, replies: seq<string>, n: nat)
    requires n <= |keys| && n <= |replies|
    ensures CountCorrect(keys, replies, n) == |Hits(keys, replies, n)|
  {
    if n > 0 {
      CountCorrectIsSize(keys, replies, n - 1);
      HitsStep(keys, replies, n);
    } else {
      assert Hits(keys, replies, 0) == {};
    }
  }

  /** The feedback shown for question `i` when it does not raise. */
  function FeedbackFor(quiz: Quiz, replies: seq<string>, i: nat): (f: Feedback)
    requires i < |replies| && !QuestionFails(quiz, replies, i)
    ensures forall score: nat :: Step(score, replies[i], quiz.keys[i], quiz.options[i]) == Some(Graded(if f == Right then score + 1 else score, f))
    ensures f == Right <==> Matches(replies[i], quiz.keys[i])
  {
    if Matches(replies[i], quiz.keys[i]) then Right else Wrong(Correction(quiz.options[i], quiz.keys[i]))
  }

  /**
   * The question loop. It fails at the first question that raises; otherwise
   * the score is the number of matching replies, out of `len(questions)`.
   */
  method RunSession(quiz: Quiz, replies: seq<string>) returns (r: Result<Report, SessionError>)
    requires |replies| >= |quiz.questions|
    ensures r.Failure? <==> exists i :: 0 <= i < |quiz.questions| && QuestionFails(quiz, replies, i)
    ensures r.Failure? ==>
      var i := r.error.question;
      i < |quiz.questions| && QuestionFails(quiz, replies, i)
      && forall j :: 0 <= j < i ==> !QuestionFails(quiz, replies, j)
    ensures |quiz.questions| == 0 ==> r == Success(Report(0, 0, []))
    ensures r.Success? ==>
      && |quiz.questions| <= |quiz.options| && |quiz.questions| <= |quiz.keys|
      && r.value.maxScore == |quiz.questions|
      && r.value.score == CountCorrect(quiz.keys, replies, |quiz.questions|)
      && r.value.score <= r.value.maxScore
      && |r.value.feedback| == |quiz.questions|
      && forall i :: 0 <= i < |quiz.questions| ==> r.value.feedback[i] == FeedbackFor(quiz, replies, i)
  {
    var n := |quiz.questions|;
    var score: nat := 0;
    var feedback: seq<Feedback> := [];
    var idx := 0;
    while idx < n
      invariant idx <= n
      invariant forall j :: 0 <= j < idx ==> !QuestionFails(quiz, replies, j)
      invariant idx <= |quiz.options| && idx <= |quiz.keys|
      invariant score == CountCorrect(quiz.keys, replies, idx)
      invariant |feedback| == idx
      invariant forall j :: 0 <= j < idx ==> feedback[j] == FeedbackFor(quiz, replies, j)
    {
      if idx >= |quiz.options| || idx >= |quiz.keys| {
        assert QuestionFails(quiz, replies, idx);
        return Failure(IndexError(idx));
      }
      var step := Step(score, replies[idx], quiz.keys[idx], quiz.options[idx]);
      if step.None? {
        assert QuestionFails(quiz, replies, idx);
        return Failure(IndexError(idx));
      }
      assert step.value == Graded(CountCorrect(quiz.keys, replies, idx + 1), FeedbackFor(quiz, replies, idx));
      score := step.value.score;
      feedback := feedback + [step.value.feedback];
      idx := idx + 1;
    }
    return Success(Report(score, n, feedback));
  }

  /** A right reply scores, a wrong one shows the option that starts with the key. */
  lemma StepExample()
    ensures Step(0, "a", 'a', ["a) Paris", "b) Rome"]) == Some(Graded(1, Right))
    ensures Step(0, "A", 'a', ["a) Paris", "b) Rome"]) == Some(Graded(1, Right))
    ensures Step(0, "b", 'a', ["a) Paris", "b) Rome"]) == Some(Graded(0, Wrong("a) Paris")))
    ensures Step(0, "b", 'c', ["a) Paris", "b) Rome"]) == Some(Graded(0, Wrong("c")))
  {
    MatchesIff("a", 'a');
    MatchesIff("A", 'a');
    MatchesIff("b", 'a');
    MatchesIff("b", 'c');
  }
}
