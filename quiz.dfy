/**
  * The quiz session state of the educational-resources page (class `State` of
  * diss_website.py): five answer slots, a fixed answer key, the integer score
  * computed on submit, its percentage text, and the selected colour mode.
  */
module Quiz {
  import opened Wrappers
  import Decimal

  /** The correct option of each of the five questions, in question order. */
  const AnswerKey: seq<string> := [
    "Neurons",
    "To evaluate the difference between predicted and actual values",
    "All of the above",
    "To learn a policy that maximizes cumulative rewards",
    "Both 1 and 3"
  ]

  const QuestionCount: nat := 5

  /** Five unanswered slots; `None` is Python's `None`. */
  const DefaultAnswers: seq<Option<string>> := [None, None, None, None, None]

  /** Slot `i` is correct when it holds exactly the key's string (a `None` slot never is). */
  predicate SlotCorrect(answers: seq<Option<string>>, key: seq<string>, i: int)
    requires 0 <= i < |answers| <= |key|
  {
    answers[i] == Some(key[i])
  }

  /** Number of correct slots, counted over the whole answer vector; never more than the slots. */
  function Matches(answers: seq<Option<string>>, key: seq<string>): (r: nat)
    requires |answers| <= |key|
    ensures r <= |answers|
  {
    if |answers| == 0 then 0
    else Matches(answers[..|answers| - 1], key)
         + (if SlotCorrect(answers, key, |answers| - 1) then 1 else 0)
  }

  /**
    * The score: `correct` out of `total` as a percentage truncated toward
    * zero (the largest whole percentage not above the ratio), 0 for no
    * questions; within 0..100 whenever no more are correct than asked.
    */
  function ScoreOf(correct: nat, total: nat): (r: int)
    ensures total == 0 ==> r == 0
    ensures total > 0 ==> 0 <= r * total <= correct * 100 < (r + 1) * total
    ensures correct <= total ==> 0 <= r <= 100
  {
    if total == 0 then 0
    else
      var r := correct * 100 / total;
      PercentBelow(correct, total, r);
      r
  }

  lemma PercentBelow(correct: nat, total: nat, r: int)
    requires total > 0 && r == correct * 100 / total
    ensures 0 <= r * total <= correct * 100 < (r + 1) * total
    ensures correct <= total ==> r <= 100
  {
    var m := correct * 100 % total;
    assert correct * 100 == r * total + m && 0 <= m < total;
    assert (r + 1) * total == r * total + total;
    assert r >= 0;
    if correct <= total {
      assert r * total <= 100 * total;
      MulMonotone(r, 100, total);
    }
  }

  lemma MulMonotone(a: int, b: int, c: int)
    requires c > 0 && a * c <= b * c
    ensures a <= b
  {
  }

  /** Every slot is correct exactly when the count reaches the number of slots. */
  lemma {:induction false} MatchesAllIff(answers: seq<Option<string>>, key: seq<string>)
    requires |answers| <= |key|
    ensures Matches(answers, key) == |answers|
            <==> forall i :: 0 <= i < |answers| ==> answers[i] == Some(key[i])
  {
    if |answers| > 0 {
      var init := answers[..|answers| - 1];
      MatchesAllIff(init, key);
      assert forall i :: 0 <= i < |init| ==> init[i] == answers[i];
    }
  }

  /** No slot is correct exactly when the count is zero. */
  lemma {:induction false} MatchesNoneIff(answers: seq<Option<string>>, key: seq<string>)
    requires |answers| <= |key|
    ensures Matches(answers, key) == 0
            <==> forall i :: 0 <= i < |answers| ==> answers[i] != Some(key[i])
  {
    if |answers| > 0 {
      var init := answers[..|answers| - 1];
      MatchesNoneIff(init, key);
      assert forall i :: 0 <= i < |init| ==> init[i] == answers[i];
    }
  }

  /** Five questions: k correct answers score exactly 20 * k. */
  lemma ScoreOfFive(k: nat)
    requires k <= 5
    ensures ScoreOf(k, QuestionCount) == 20 * k
  {
  }

  /**
    * The counting loop of `submit`: walks the answer vector in order, counting
    * the slots and the exact matches against the key.
    */
  method CountCorrect(answers: seq<Option<string>>, key: seq<string>) returns (total: nat, correct: nat)
    requires |answers| <= |key|
    ensures total == |answers|
    ensures correct == Matches(answers, key)
    ensures correct <= total
  {
    total, correct := 0, 0;
    var i := 0;
    while i < |answers|
      invariant 0 <= i <= |answers|
      invariant total == i
      invariant correct == Matches(answers[..i], key)
      invariant correct <= total
    {
      assert answers[..i + 1][..i] == answers[..i];
      if answers[i] == Some(key[i]) {
        correct := correct + 1;
      }
      total := total + 1;
      i := i + 1;
    }
    assert answers[..i] == answers;
  }

  /** Percentage text of a score: its decimal text followed by one `%`. */
  function PercentText(score: int): (r: string)
    ensures |r| >= 2 && r[|r| - 1] == '%'
    ensures Decimal.ParseInt(r[..|r| - 1]) == Some(score)
  {
    var digits := Decimal.IntToString(score);
    Decimal.IntToStringRoundTrip(score);
    assert (digits + "%")[..|digits|] == digits;
    digits + "%"
  }

  /** Argument of `set_color_mode`: a plain string or a list of strings. */
  datatype ColorModeArg = Mode(mode: string) | ModeList(modes: seq<string>)

  /** The mode `set_color_mode` stores, or `None` when indexing an empty list raises. */
  function SelectedMode(arg: ColorModeArg): (r: Option<string>)
    ensures arg.Mode? ==> r == Some(arg.mode)
    ensures arg.ModeList? && |arg.modes| > 0 ==> r == Some(arg.modes[0])
    ensures r.None? <==> arg.ModeList? && arg.modes == []
  {
    match arg
    case Mode(m) => Some(m)
    case ModeList(ms) => if |ms| > 0 then Some(ms[0]) else None
  }

  /** The slot a Python index names in a list of `len` items: negative indices count from the end. */
  function SlotOf(index: int, len: nat): int
  {
    if index < 0 then index + len else index
  }

  /** Per-session quiz state. */
  class State {
    var answers: seq<Option<string>>
    var score: int
    var colorMode: string

    /**
      * Every slot has a question (the vector is as long as the key, so
      * `submit` can run) and the score is a percentage.
      */
    ghost predicate Valid()
      reads this
    {
      |answers| == |AnswerKey| && 0 <= score <= 100
    }

    /** Class defaults: five unanswered slots, score 0, light mode. */
    constructor ()
      ensures Valid()
      ensures answers == DefaultAnswers && score == 0 && colorMode == "light"
    {
      answers := DefaultAnswers;
      score := 0;
      colorMode := "light";
    }

    /** The `onload` handler as written (no page registers it): a fresh vector of five unanswered slots; nothing else changes. */
    method OnLoad()
      modifies this`answers
      ensures old(Valid()) ==> Valid()
      ensures |answers| == QuestionCount
      ensures forall i :: 0 <= i < |answers| ==> answers[i] == None
    {
      answers := DefaultAnswers;
    }

    /**
      * `set_answers(answer, index)`: Python list assignment, so an index from
      * -len to len-1 names a slot (a negative one counts from the end) and any
      * other index raises IndexError, reported here as `ok == false` with the
      * state left as it was.
      */
    method SetAnswers(answer: string, index: int) returns (ok: bool)
      modifies this`answers
      ensures ok <==> -|old(answers)| <= index < |old(answers)|
      ensures |answers| == |old(answers)|
      ensures ok ==> answers[SlotOf(index, |answers|)] == Some(answer)
      ensures forall j :: 0 <= j < |answers| && !(ok && j == SlotOf(index, |answers|)) ==> answers[j] == old(answers)[j]
      ensures old(Valid()) ==> Valid()
    {
      ok := -|answers| <= index < |answers|;
      if ok {
        answers := answers[SlotOf(index, |answers|) := Some(answer)];
      }
    }

    /**
      * `submit`: the score becomes the truncated percentage of exact matches;
      * the answers are not touched. A vector longer than the key would make
      * the key lookup raise, so that is excluded; an empty one scores 0.
      */
    method Submit()
      requires |answers| <= |AnswerKey|
      modifies this`score
      ensures score == ScoreOf(Matches(answers, AnswerKey), |answers|)
      ensures 0 <= score <= 100
      ensures old(Valid()) ==> Valid()
    {
      var total, correct := CountCorrect(answers, AnswerKey);
      if total == 0 {
        score := 0;
      } else {
        score := correct * 100 / total;
      }
    }

    /** `percent_score`: the score as `"<n>%"`. */
    function PercentScore(): (r: string)
      reads this
      ensures r == PercentText(score)
      ensures Decimal.ParseInt(r[..|r| - 1]) == Some(score)
    {
      PercentText(score)
    }

    /** `set_color_mode`: a string is stored as given, a list by its first element. */
    method SetColorMode(arg: ColorModeArg) returns (raised: bool)
      modifies this`colorMode
      ensures raised <==> SelectedMode(arg).None?
      ensures colorMode == if raised then old(colorMode) else SelectedMode(arg).value
      ensures old(Valid()) ==> Valid()
    {
      match arg
      case ModeList(ms) =>
        if |ms| == 0 {
          raised := true;
        } else {
          raised := false;
          colorMode := ms[0];
        }
      case Mode(m) =>
        raised := false;
        colorMode := m;
    }
  }

  /** A full submission after every slot was answered correctly scores 100. */
  lemma AllCorrectScoresHundred(answers: seq<Option<string>>)
    requires |answers| == |AnswerKey|
    requires forall i :: 0 <= i < |answers| ==> answers[i] == Some(AnswerKey[i])
    ensures ScoreOf(Matches(answers, AnswerKey), |answers|) == 100
  {
    MatchesAllIff(answers, AnswerKey);
  }

  /** Wrong or unanswered everywhere scores 0. */
  lemma AllWrongScoresZero(answers: seq<Option<string>>)
    requires |answers| == |AnswerKey|
    requires forall i :: 0 <= i < |answers| ==> answers[i] != Some(AnswerKey[i])
    ensures ScoreOf(Matches(answers, AnswerKey), |answers|) == 0
  {
    MatchesNoneIff(answers, AnswerKey);
  }

  /** A freshly loaded quiz has five unanswered slots and, once submitted, scores 0. */
  lemma DefaultAnswersScoreZero()
    ensures ScoreOf(Matches(DefaultAnswers, AnswerKey), |DefaultAnswers|) == 0
  {
    AllWrongScoresZero(DefaultAnswers);
  }
}
