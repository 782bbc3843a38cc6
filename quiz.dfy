/**
 * `get_data_from_quiz`: title, questions, grouped options and key letters
 * extracted from one text, then shuffled together.
 *
 * The Python function raises on three malformed inputs before shuffling
 * (an empty text, no numbered question, fewer options than questions) and
 * the shuffle itself raises when a drawn index is past the end of the key
 * list; each of these is an error value here.
 */
module QuizData {
  import opened Wrappers
  import opened Chars
  import opened Extract
  import opened Chunking
  import opened Shuffle

  /** The quiz the session runs: parallel lists, aligned by index. */
  datatype Quiz = Quiz(title: string, questions: seq<string>, options: seq<seq<string>>, keys: seq<char>)

  datatype LoadError =
    | EmptyText           // IndexError of `text.splitlines()[0]`
    | NoQuestions         // ZeroDivisionError of `len(answers) // len(questions)`
    | TooFewOptions       // ValueError of `range(0, len(answers), 0)`
    | KeyIndexOutOfRange  // IndexError of the swap in `correct_answers`

  /** Every option of every group is a `<letter>) <text>` line fragment. */
  predicate WellFormedOptions(options: seq<seq<string>>) {
    forall g, k :: 0 <= g < |options| && 0 <= k < |options[g]| ==>
      |options[g][k]| >= 4 && IsQuizLetter(options[g][k][0]) && options[g][k][1] == ')' && options[g][k][2] == ' '
  }

  /** The quiz as extracted from `text`, before the shuffle. */
  function Extracted(text: string): (r: Result<Quiz, LoadError>)
    ensures r == Failure(EmptyText) <==> text == []
    ensures r == Failure(NoQuestions) <==> text != [] && ParseQuestions(text) == []
    ensures r == Failure(TooFewOptions) <==> ParseQuestions(text) != [] && |ParseAnswers(text)| < |ParseQuestions(text)|
    ensures r.Success? <==> text != [] && ParseQuestions(text) != [] && |ParseAnswers(text)| >= |ParseQuestions(text)|
    ensures r.Success? ==>
      r.value.options == Chunk(ParseAnswers(text), OptionsPerQuestion(|ParseAnswers(text)|, |ParseQuestions(text)|))
    ensures r.Success? ==>
      && r.value.questions == ParseQuestions(text) && r.value.keys == ParseCorrectAnswers(text)
      && Some(r.value.title) == ParseTitle(text)
      && 1 <= |r.value.questions| <= |r.value.options|
      && Flatten(r.value.options) == ParseAnswers(text)
      && WellFormedOptions(r.value.options)
  {
    if text == [] then Failure(EmptyText)
    else
      var questions := ParseQuestions(text);
      if questions == [] then Failure(NoQuestions)
      else
        var answers := ParseAnswers(text);
        var size := OptionsPerQuestion(|answers|, |questions|);
        OptionsPerQuestionZero(|answers|, |questions|);
        if size == 0 then Failure(TooFewOptions)
        else
          var groups := Chunk(answers, size);
          GroupsCoverQuestions(answers, |questions|);
          GroupsWellFormed(groups, answers);
          Success(Quiz(ParseTitle(text).value, questions, groups, ParseCorrectAnswers(text)))
  }

  /** Each element of each group occurs in the flat list the groups came from. */
  lemma {:induction false} FlattenedMembers<T>(groups: seq<seq<T>>, xs: seq<T>)
    requires Flatten(groups) == xs
    ensures forall g, k :: 0 <= g < |groups| && 0 <= k < |groups[g]| ==> groups[g][k] in xs
    decreases |groups|
  {
    if groups != [] {
      FlattenedMembers(groups[1..], Flatten(groups[1..]));
      forall g, k | 0 <= g < |groups| && 0 <= k < |groups[g]| ensures groups[g][k] in xs {
        if g > 0 {
          assert groups[g] == groups[1..][g - 1];
        }
      }
    }
  }

  /** Groups cut from the parsed options hold only well-formed options. */
  lemma GroupsWellFormed(groups: seq<seq<string>>, answers: seq<string>)
    requires Flatten(groups) == answers
    requires forall i :: 0 <= i < |answers| ==>
      |answers[i]| >= 4 && IsQuizLetter(answers[i][0]) && answers[i][1] == ')' && answers[i][2] == ' '
    ensures WellFormedOptions(groups)
  {
    FlattenedMembers(groups, answers);
    forall g, k | 0 <= g < |groups| && 0 <= k < |groups[g]|
      ensures |groups[g][k]| >= 4 && IsQuizLetter(groups[g][k][0]) && groups[g][k][1] == ')' && groups[g][k][2] == ' '
    {
      var o := groups[g][k];
      assert o in answers;
      var i :| 0 <= i < |answers| && answers[i] == o;
    }
  }

  /** The quiz after the shuffle: the same draws applied to the three lists. */
  function ShuffledQuiz(q: Quiz, draws: seq<Draw>): (r: Quiz)
    requires DrawsWithin(draws, |q.questions|) && DrawsWithin(draws, |q.options|) && DrawsWithin(draws, |q.keys|)
    ensures r.title == q.title
    ensures |r.questions| == |q.questions| && |r.options| == |q.options| && |r.keys| == |q.keys|
    ensures multiset(r.questions) == multiset(q.questions)
    ensures multiset(r.options) == multiset(q.options)
    ensures multiset(r.keys) == multiset(q.keys)
  {
    ApplyDrawsPermutes(q.questions, draws);
    ApplyDrawsPermutes(q.options, draws);
    ApplyDrawsPermutes(q.keys, draws);
    Quiz(q.title, ApplyDraws(q.questions, draws), ApplyDraws(q.options, draws), ApplyDraws(q.keys, draws))
  }

  /**
   * `get_data_from_quiz(text)` with the shuffle's random indices given as
   * `draws`: the default 30 repetitions, each index below the number of
   * questions as `randrange` promises. Without a question the program
   * raises before it draws, so the draws are then unconstrained.
   */
  method GetDataFromQuiz(text: string, draws: seq<Draw>) returns (r: Result<Quiz, LoadError>)
    requires |draws| == DefaultRepeat && (ParseQuestions(text) != [] ==> DrawsWithin(draws, |ParseQuestions(text)|))
    ensures Extracted(text).Failure? ==> r == Extracted(text)
    ensures Extracted(text).Success? ==>
      var q := Extracted(text).value;
      DrawsWithin(draws, |q.options|)
      && r == if DrawsWithin(draws, |q.keys|) then Success(ShuffledQuiz(q, draws)) else Failure(KeyIndexOutOfRange)
  {
    var extracted := Extracted(text);
    if extracted.Failure? {
      return extracted;
    }
    var q := extracted.value;
    DrawsWithinMonotone(draws, |q.questions|, |q.options|);
    if !DrawsWithin(draws, |q.keys|) {
      return Failure(KeyIndexOutOfRange);
    }
    var questions := new string[|q.questions|](i requires 0 <= i < |q.questions| => q.questions[i]);
    var options := new seq<string>[|q.options|](i requires 0 <= i < |q.options| => q.options[i]);
    var keys := new char[|q.keys|](i requires 0 <= i < |q.keys| => q.keys[i]);
    assert questions[..] == q.questions && options[..] == q.options && keys[..] == q.keys;
    ShuffleInPlace(questions, options, keys, draws);
    r := Success(Quiz(q.title, questions[..], options[..], keys[..]));
  }

  /**
   * After a successful load whose key list is as long as the question list,
   * question `i`, its option group and its key letter all moved to the same
   * index `Target(draws, i)`.
   */
  lemma LoadedQuizAligned(text: string, draws: seq<Draw>)
    requires Extracted(text).Success?
    requires var q := Extracted(text).value; |q.keys| >= |q.questions| && DrawsWithin(draws, |q.questions|)
    ensures var q := Extracted(text).value;
      DrawsWithin(draws, |q.options|) && DrawsWithin(draws, |q.keys|)
      && var s := ShuffledQuiz(q, draws);
      forall i :: 0 <= i < |q.questions| ==>
        var j := Target(draws, i);
        j < |s.questions|
        && s.questions[j] == q.questions[i] && s.options[j] == q.options[i] && s.keys[j] == q.keys[i]
  {
    var q := Extracted(text).value;
    ShuffleKeepsAlignment(q.questions, q.options, q.keys, draws);
  }
}
