/** Quizzes: validation, preparation for one sitting, and scoring (src/quiz.rs). */
module Quizzes {
  import opened Wrappers
  import opened Text

  type u32 = n: int | 0 <= n <= 0xFFFF_FFFF

  datatype Environment = Host | Docker | Network | General

  datatype Question = Question(prompt: string, choices: seq<string>, correctIndex: nat)

  datatype Quiz = Quiz(
    title: string,
    environment: Environment,
    threshold: u32,
    maxAttempts: u32,
    questionLimit: Option<u32>,
    shuffleQuestions: bool,
    shuffleChoices: bool,
    questions: seq<Question>)

  /** What a respondent sees: the questions of one sitting. */
  datatype PreparedQuiz = PreparedQuiz(
    title: string,
    threshold: u32,
    maxAttempts: u32,
    questions: seq<Question>)

  datatype Score = Score(correct: u32, total: u32, percent: u32, passed: bool)

  /** `DivisionByZero` stands for the panic on an empty quiz. */
  datatype ScoreResult = Unanswered | DivisionByZero | Scored(score: Score)

  // ---------- validation ----------

  predicate ValidText(value: string, maxChars: nat) {
    Trim(value) != "" && |value| <= maxChars && forall c :: c in value ==> !IsControl(c)
  }

  predicate ValidQuestion(q: Question) {
    && ValidText(q.prompt, 2000)
    && 2 <= |q.choices| <= 20
    && q.correctIndex < |q.choices|
    && (forall i :: 0 <= i < |q.choices| ==> ValidText(q.choices[i], 500))
    && (forall i, j :: 0 <= i < j < |q.choices| ==> Trim(q.choices[i]) != Trim(q.choices[j]))
  }

  predicate ValidLimit(limit: Option<u32>, available: nat) {
    limit.Some? ==> 1 <= limit.value <= available
  }

  predicate Valid(q: Quiz) {
    && ValidText(q.title, 200)
    && 1 <= q.threshold <= 100
    && 1 <= q.maxAttempts <= 100
    && 1 <= |q.questions| <= 200
    && ValidLimit(q.questionLimit, |q.questions|)
    && (forall i :: 0 <= i < |q.questions| ==> ValidQuestion(q.questions[i]))
  }

  // ---------- preparation ----------

  /** How many questions one sitting asks. */
  function ExamSize(q: Quiz): nat {
    if q.questionLimit.Some? && q.questionLimit.value <= |q.questions| then q.questionLimit.value else |q.questions|
  }

  /** Some outcome of an optional shuffle. */
  ghost predicate Rearranged<T>(shuffled: bool, before: seq<T>, after: seq<T>) {
    if shuffled then multiset(before) == multiset(after) else before == after
  }

  /** One question as it may be shown: the same choices in some order, with the index of the
      first choice that carries the correct text. */
  ghost predicate PreparedQuestionFrom(shuffled: bool, q: Question, shown: Question) {
    && q.correctIndex < |q.choices|
    && shown.prompt == q.prompt
    && Rearranged(shuffled, q.choices, shown.choices)
    && shown.correctIndex < |shown.choices|
    && shown.choices[shown.correctIndex] == q.choices[q.correctIndex]
    && (forall i :: 0 <= i < shown.correctIndex ==> shown.choices[i] != q.choices[q.correctIndex])
  }

  ghost predicate PreparedInOrder(q: Quiz, order: seq<Question>, p: PreparedQuiz) {
    && Rearranged(q.shuffleQuestions, q.questions, order)
    && |order| == |q.questions|
    && |p.questions| == ExamSize(q)
    && forall i :: 0 <= i < ExamSize(q) ==> PreparedQuestionFrom(q.shuffleChoices, order[i], p.questions[i])
  }

  /** Every outcome that `prepare` can have, over all outcomes of its random draws. */
  ghost predicate PreparedFrom(q: Quiz, p: PreparedQuiz) {
    && p.title == q.title && p.threshold == q.threshold && p.maxAttempts == q.maxAttempts
    && exists order :: PreparedInOrder(q, order, p)
  }

  /** The in-place shuffle: each position, from the last down, is exchanged with a randomly
      drawn position at or before it. Every draw is possible. */
  method Shuffle<T>(a: array<T>)
    modifies a
    ensures multiset(a[..]) == multiset(old(a[..]))
  {
    var i := a.Length;
    while i > 1
      invariant 0 <= i <= a.Length
      invariant multiset(a[..]) == multiset(old(a[..]))
    {
      i := i - 1;
      var j: nat :| j <= i;
      a[i], a[j] := a[j], a[i];
    }
  }

  method PrepareQuestion(q: Question, shuffled: bool) returns (shown: Question)
    requires q.correctIndex < |q.choices|
    ensures PreparedQuestionFrom(shuffled, q, shown)
  {
    var correct := q.choices[q.correctIndex];
    var choices := new string[|q.choices|](i requires 0 <= i < |q.choices| => q.choices[i]);
    assert choices[..] == q.choices;
    if shuffled {
      Shuffle(choices);
    }
    assert correct in multiset(q.choices);
    assert correct in choices[..];
    var position := 0;
    assert choices[0..] == choices[..];
    while choices[position] != correct
      invariant 0 <= position < choices.Length
      invariant forall i :: 0 <= i < position ==> choices[i] != correct
      invariant correct in choices[position..]
      decreases choices.Length - position
    {
      position := position + 1;
    }
    shown := Question(q.prompt, choices[..], position);
  }

  method Prepare(q: Quiz) returns (p: PreparedQuiz)
    requires forall i :: 0 <= i < |q.questions| ==> q.questions[i].correctIndex < |q.questions[i].choices|
    ensures PreparedFrom(q, p)
  {
    var questions := new Question[|q.questions|](i requires 0 <= i < |q.questions| => q.questions[i]);
    assert questions[..] == q.questions;
    if q.shuffleQuestions {
      Shuffle(questions);
    }
    var order := questions[..];
    assert Rearranged(q.shuffleQuestions, q.questions, order);
    forall i | 0 <= i < |order| ensures order[i].correctIndex < |order[i].choices| {
      assert order[i] in multiset(order);
      assert order[i] in multiset(q.questions);
      assert order[i] in q.questions;
    }
    var limit := q.questionLimit;
    var kept := if limit.Some? && limit.value < |order| then order[..limit.value] else order;
    var shown := [];
    for k := 0 to |kept|
      invariant |shown| == k
      invariant forall i :: 0 <= i < k ==> PreparedQuestionFrom(q.shuffleChoices, order[i], shown[i])
    {
      var question := PrepareQuestion(kept[k], q.shuffleChoices);
      shown := shown + [question];
    }
    p := PreparedQuiz(q.title, q.threshold, q.maxAttempts, shown);
    assert PreparedInOrder(q, order, p);
  }

  // ---------- scoring ----------

  /** The number of answers that name the correct choice. */
  function Marks(answers: seq<nat>, questions: seq<Question>): (n: nat)
    requires |answers| == |questions|
    ensures n <= |answers|
  {
    if answers == [] then 0
    else (if answers[0] == questions[0].correctIndex then 1 else 0) + Marks(answers[1..], questions[1..])
  }

  /** Arithmetic on 32-bit unsigned integers keeps the low 32 bits. */
  function WrapU32(n: nat): u32 { n % 0x1_0000_0000 }

  lemma FloorAtLeast(a: nat, t: nat, k: nat)
    requires t > 0
    ensures a / t >= k <==> a >= k * t
  {
    var d := a / t;
    assert a == d * t + a % t;
    if d >= k {
      assert d * t >= k * t;
    } else {
      assert (d + 1) * t <= k * t;
    }
  }

  lemma QuotientFits(a: nat, b: nat)
    requires b > 0
    ensures a / b <= a
  {
    FloorAtLeast(a, b, a + 1);
    Scale(1, b, a + 1);
  }

  lemma Scale(a: nat, b: nat, t: nat)
    requires a <= b
    ensures a * t <= b * t
  {}

  function Quotient(a: u32, b: u32): u32
    requires b > 0
  {
    QuotientFits(a, b);
    a / b
  }

  function Product(a: nat, b: nat): nat { a * b }

  function ScoreAnswers(p: PreparedQuiz, answers: seq<nat>): ScoreResult {
    if |answers| != |p.questions| then Unanswered
    else
      var correct := WrapU32(Marks(answers, p.questions));
      var total := WrapU32(|p.questions|);
      if total == 0 then DivisionByZero
      else
        Scored(Score(correct, total, Quotient(WrapU32(correct * 100), total),
                     WrapU32(correct * 100) >= WrapU32(Product(p.threshold, total))))
  }

  lemma RearrangedElements<T>(shuffled: bool, before: seq<T>, after: seq<T>)
    requires Rearranged(shuffled, before, after)
    ensures multiset(before) == multiset(after)
    ensures |before| == |after|
    ensures forall x :: x in before <==> x in after
  {
    assert |multiset(before)| == |before| && |multiset(after)| == |after|;
    forall x ensures x in before <==> x in after {
      assert x in before <==> x in multiset(before);
      assert x in after <==> x in multiset(after);
    }
  }

  lemma PrefixOfRearranged<T>(shuffled: bool, before: seq<T>, after: seq<T>, n: nat)
    requires Rearranged(shuffled, before, after) && n <= |after|
    ensures multiset(after[..n]) <= multiset(before)
    ensures n == |before| ==> multiset(after[..n]) == multiset(before)
  {
    RearrangedElements(shuffled, before, after);
    assert after == after[..n] + after[n..];
    assert n == |after| ==> after[..n] == after;
  }

  lemma OrderHoldsValidQuestions(q: Quiz, order: seq<Question>)
    requires Valid(q) && Rearranged(q.shuffleQuestions, q.questions, order)
    ensures |order| == |q.questions|
    ensures forall i :: 0 <= i < |order| ==> ValidQuestion(order[i])
  {
    RearrangedElements(q.shuffleQuestions, q.questions, order);
    forall i | 0 <= i < |order| ensures ValidQuestion(order[i]) {
      assert order[i] in order;
    }
  }

  /** A prepared quiz asks a selection of the quiz's own questions, each at most as often as
      the quiz holds it, exactly as many as the limit (or all), in their shown form. */
  lemma PreparedSelection(q: Quiz, p: PreparedQuiz) returns (asked: seq<Question>)
    requires Valid(q) && PreparedFrom(q, p)
    ensures multiset(asked) <= multiset(q.questions)
    ensures |asked| == |p.questions| == ExamSize(q)
    ensures q.questionLimit.None? ==> multiset(asked) == multiset(q.questions)
    ensures AskedAs(q.shuffleChoices, asked, p.questions)
  {
    var order :| PreparedInOrder(q, order, p);
    OrderHoldsValidQuestions(q, order);
    asked := order[..ExamSize(q)];
    PrefixOfRearranged(q.shuffleQuestions, q.questions, order, ExamSize(q));
  }

  ghost predicate AskedAs(shuffled: bool, asked: seq<Question>, shown: seq<Question>) {
    && |asked| == |shown|
    && forall i :: 0 <= i < |asked| ==>
         ValidQuestion(asked[i]) && PreparedQuestionFrom(shuffled, asked[i], shown[i])
  }

  /** A valid quiz prepares to between 1 and 200 questions, each with 2 to 20 choices and a
      correct index that names one of them. */
  lemma PreparedShape(q: Quiz, p: PreparedQuiz)
    requires Valid(q) && PreparedFrom(q, p)
    ensures 1 <= |p.questions| == ExamSize(q) <= 200
    ensures |p.questions| == if q.questionLimit.Some? then q.questionLimit.value else |q.questions|
    ensures forall i :: 0 <= i < |p.questions| ==>
      2 <= |p.questions[i].choices| <= 20 && p.questions[i].correctIndex < |p.questions[i].choices|
  {
    var asked := PreparedSelection(q, p);
    forall i | 0 <= i < |p.questions|
      ensures 2 <= |p.questions[i].choices| <= 20 && p.questions[i].correctIndex < |p.questions[i].choices|
    {
      assert ValidQuestion(asked[i]);
      RearrangedElements(q.shuffleChoices, asked[i].choices, p.questions[i].choices);
    }
  }

  lemma ScoreArithmetic(m: nat, t: nat, k: nat)
    requires m <= t && 1 <= t <= 200 && 1 <= k <= 100
    ensures WrapU32(m) == m && WrapU32(t) == t && WrapU32(m * 100) == m * 100 && WrapU32(k * t) == k * t
    ensures m * 100 / t <= 100
    ensures m * 100 >= k * t <==> m * 100 / t >= k
    ensures m == t ==> m * 100 >= k * t
    ensures m == 0 ==> m * 100 < k * t
  {
    var product := k * t;
    assert t <= product <= 20_000 by { Scale(1, k, t); Scale(k, 100, t); }
    SmallFits(m);
    SmallFits(t);
    SmallFits(m * 100);
    SmallFits(product);
    FloorAtLeast(m * 100, t, k);
    FloorAtLeast(m * 100, t, 101);
  }

  lemma SmallFits(n: nat)
    requires n <= 20_000
    ensures WrapU32(n) == n
  {}

  /** For a valid quiz no 32-bit operation of the score wraps or divides by zero: the score
      is the exact count and percentage, and the two ways to read the pass mark agree. */
  lemma ScoreIsExact(q: Quiz, p: PreparedQuiz, answers: seq<nat>)
    requires Valid(q) && PreparedFrom(q, p)
    ensures |p.questions| == ExamSize(q)
    ensures ScoreAnswers(p, answers).Unanswered? <==> |answers| != ExamSize(q)
    ensures |answers| == ExamSize(q) ==>
      && ScoreAnswers(p, answers).Scored?
      && var s, m := ScoreAnswers(p, answers).score, Marks(answers, p.questions);
      && s.correct == m && s.total == ExamSize(q)
      && s.percent == m * 100 / ExamSize(q) <= 100
      && (s.passed <==> s.percent >= q.threshold)
      && (s.passed <==> m * 100 >= q.threshold * ExamSize(q))
  {
    PreparedShape(q, p);
    if |answers| == ExamSize(q) {
      ScoreArithmetic(Marks(answers, p.questions), |p.questions|, q.threshold);
    }
  }

  /** Passing is monotone in the number of correct answers; a full set of correct answers
      passes and an empty one fails, whatever the threshold. */
  lemma PassingIsMonotone(q: Quiz, p: PreparedQuiz, p': PreparedQuiz, answers: seq<nat>, answers': seq<nat>)
    requires Valid(q) && PreparedFrom(q, p) && PreparedFrom(q, p')
    requires |answers| == |answers'| == ExamSize(q)
    ensures ScoreAnswers(p, answers).Scored? && ScoreAnswers(p', answers').Scored?
    ensures
      var s, s' := ScoreAnswers(p, answers).score, ScoreAnswers(p', answers').score;
      && (s.correct <= s'.correct && s.passed ==> s'.passed)
      && (s.correct == ExamSize(q) ==> s.passed)
      && (s.correct == 0 ==> !s.passed)
  {
    PreparedShape(q, p);
    ScoreIsExact(q, p, answers);
    ScoreIsExact(q, p', answers');
    ScoreArithmetic(Marks(answers, p.questions), ExamSize(q), q.threshold);
  }

  // ---------- the shuffles do not change what an answer means ----------

  ghost predicate Distinct<T>(s: seq<T>) {
    forall i, j :: 0 <= i < j < |s| ==> s[i] != s[j]
  }

  lemma DistinctChoices(q: Question)
    requires ValidQuestion(q)
    ensures Distinct(q.choices)
  {
    forall i, j | 0 <= i < j < |q.choices| ensures q.choices[i] != q.choices[j] {
      assert Trim(q.choices[i]) != Trim(q.choices[j]);
    }
  }

  lemma {:induction false} OnceInDistinct<T>(s: seq<T>, x: T)
    requires Distinct(s)
    ensures multiset(s)[x] <= 1
  {
    if s != [] {
      var n := |s| - 1;
      assert s == s[..n] + [s[n]];
      OnceInDistinct(s[..n], x);
      assert x == s[n] ==> x !in s[..n];
      assert x in multiset(s[..n]) <==> x in s[..n];
    }
  }

  lemma DistinctRearranged<T>(s: seq<T>, t: seq<T>)
    requires Distinct(s) && multiset(s) == multiset(t)
    ensures Distinct(t)
  {
    forall i, j | 0 <= i < j < |t| ensures t[i] != t[j] {
      OnceInDistinct(s, t[i]);
      assert t == t[..j] + [t[j]] + t[j + 1..];
      assert t[i] in t[..j];
      assert multiset(t)[t[i]] >= multiset(t[..j])[t[i]] + multiset([t[j]])[t[i]];
    }
  }

  /** Choosing a text on the shown question gets the mark that choosing the same text on the
      stored question gets, and each shown choice is one stored choice. */
  lemma ChoiceTextDecidesMark(shuffled: bool, q: Question, shown: Question, answer: nat) returns (original: nat)
    requires ValidQuestion(q) && PreparedQuestionFrom(shuffled, q, shown)
    requires answer < |shown.choices|
    ensures original < |q.choices| && q.choices[original] == shown.choices[answer]
    ensures forall j :: 0 <= j < |q.choices| && q.choices[j] == shown.choices[answer] ==> j == original
    ensures answer == shown.correctIndex <==> original == q.correctIndex
  {
    RearrangedElements(shuffled, q.choices, shown.choices);
    DistinctChoices(q);
    DistinctRearranged(q.choices, shown.choices);
    assert shown.choices[answer] in q.choices;
    original :| 0 <= original < |q.choices| && q.choices[original] == shown.choices[answer];
  }

  /** A respondent who decides by the prompt and the set of choice texts. */
  type Respondent = (string, multiset<string>) -> string

  /** The answers pick, on every shown question, a choice with the respondent's text. */
  ghost predicate AnswersByText(respond: Respondent, p: PreparedQuiz, answers: seq<nat>) {
    && |answers| == |p.questions|
    && forall i :: 0 <= i < |answers| ==>
         && answers[i] < |p.questions[i].choices|
         && p.questions[i].choices[answers[i]] == respond(p.questions[i].prompt, multiset(p.questions[i].choices))
  }

  ghost predicate Knows(respond: Respondent, q: Question) {
    q.correctIndex < |q.choices| && respond(q.prompt, multiset(q.choices)) == q.choices[q.correctIndex]
  }

  ghost function Known(respond: Respondent, questions: seq<Question>): nat {
    if questions == [] then 0
    else (if Knows(respond, questions[0]) then 1 else 0) + Known(respond, questions[1..])
  }

  lemma {:induction false} KnownOfConcat(respond: Respondent, a: seq<Question>, b: seq<Question>)
    ensures Known(respond, a + b) == Known(respond, a) + Known(respond, b)
  {
    if a == [] {
      assert a + b == b;
    } else {
      KnownOfConcat(respond, a[1..], b);
      assert (a + b)[1..] == a[1..] + b;
    }
  }

  lemma KnownOfMiddle(respond: Respondent, before: seq<Question>, x: Question, after: seq<Question>)
    ensures Known(respond, before + ([x] + after)) == Known(respond, [x]) + Known(respond, before + after)
  {
    KnownOfConcat(respond, before, [x] + after);
    KnownOfConcat(respond, [x], after);
    KnownOfConcat(respond, before, after);
  }

  lemma SameRest<T>(x: T, xs: seq<T>, before: seq<T>, after: seq<T>)
    requires multiset([x] + xs) == multiset(before + ([x] + after))
    ensures multiset(xs) == multiset(before + after)
  {
    var one, left, right := multiset{x}, multiset(xs), multiset(before) + multiset(after);
    assert multiset([x] + xs) == one + left;
    assert multiset(before + ([x] + after)) == one + right;
    assert left == (one + left) - one && right == (one + right) - one;
  }

  /** The first element of one list, taken out of a rearranged one. */
  lemma TakeFirstOut<T>(a: seq<T>, b: seq<T>) returns (before: seq<T>, after: seq<T>)
    requires a != [] && multiset(a) == multiset(b)
    ensures b == before + ([a[0]] + after)
    ensures multiset(a[1..]) == multiset(before + after)
  {
    assert a[0] in multiset(b);
    var i :| 0 <= i < |b| && b[i] == a[0];
    before, after := b[..i], b[i + 1..];
    assert b == before + ([a[0]] + after);
    assert a == [a[0]] + a[1..];
    SameRest(a[0], a[1..], before, after);
  }

  lemma {:induction false} KnownIgnoresOrder(respond: Respondent, a: seq<Question>, b: seq<Question>)
    requires multiset(a) == multiset(b)
    ensures Known(respond, a) == Known(respond, b)
    decreases |a|
  {
    if a == [] {
      assert |multiset(b)| == |b|;
    } else {
      var before, after := TakeFirstOut(a, b);
      KnownOfMiddle(respond, before, a[0], after);
      KnownIgnoresOrder(respond, a[1..], before + after);
      assert [a[0]][1..] == [];
    }
  }

  lemma {:induction false} MarksAreKnown(
    respond: Respondent, shuffled: bool, asked: seq<Question>, shown: seq<Question>, answers: seq<nat>)
    requires AskedAs(shuffled, asked, shown) && |answers| == |shown|
    requires forall i :: 0 <= i < |answers| ==>
      && answers[i] < |shown[i].choices|
      && shown[i].choices[answers[i]] == respond(shown[i].prompt, multiset(shown[i].choices))
    ensures Marks(answers, shown) == Known(respond, asked)
  {
    if asked != [] {
      MarksAreKnown(respond, shuffled, asked[1..], shown[1..], answers[1..]);
      RearrangedElements(shuffled, asked[0].choices, shown[0].choices);
      var original := ChoiceTextDecidesMark(shuffled, asked[0], shown[0], answers[0]);
      DistinctChoices(asked[0]);
    }
  }

  /** Without a question limit the score of a respondent who answers by text depends on
      neither shuffle: any two preparations of the quiz give the same score, which counts the
      stored questions the respondent knows. */
  lemma ScoreIgnoresShuffles(
    q: Quiz, respond: Respondent, p: PreparedQuiz, answers: seq<nat>, p': PreparedQuiz, answers': seq<nat>)
    requires Valid(q) && q.questionLimit.None?
    requires PreparedFrom(q, p) && AnswersByText(respond, p, answers)
    requires PreparedFrom(q, p') && AnswersByText(respond, p', answers')
    ensures ScoreAnswers(p, answers) == ScoreAnswers(p', answers')
    ensures ScoreAnswers(p, answers).Scored? && ScoreAnswers(p, answers).score.correct == Known(respond, q.questions)
  {
    var asked := PreparedSelection(q, p);
    var asked' := PreparedSelection(q, p');
    MarksAreKnown(respond, q.shuffleChoices, asked, p.questions, answers);
    MarksAreKnown(respond, q.shuffleChoices, asked', p'.questions, answers');
    KnownIgnoresOrder(respond, asked, q.questions);
    KnownIgnoresOrder(respond, asked', q.questions);
    ScoreIsExact(q, p, answers);
    ScoreIsExact(q, p', answers');
  }

  /** With a limit the score counts the known questions among those that were drawn, so it is
      at most what the respondent knows and at least what the limit leaves after every unknown
      question is drawn. */
  lemma ScoreUnderLimit(q: Quiz, respond: Respondent, p: PreparedQuiz, answers: seq<nat>)
    requires Valid(q) && PreparedFrom(q, p) && AnswersByText(respond, p, answers)
    ensures ScoreAnswers(p, answers).Scored?
    ensures ScoreAnswers(p, answers).score.correct <= Known(respond, q.questions)
    ensures ScoreAnswers(p, answers).score.correct
            >= ExamSize(q) - (|q.questions| - Known(respond, q.questions))
  {
    var asked := PreparedSelection(q, p);
    MarksAreKnown(respond, q.shuffleChoices, asked, p.questions, answers);
    ScoreIsExact(q, p, answers);
    var left := SequenceOf(multiset(q.questions) - multiset(asked));
    assert multiset(asked + left) == multiset(q.questions);
    assert |multiset(asked + left)| == |asked| + |left|;
    assert |multiset(q.questions)| == |q.questions|;
    KnownIgnoresOrder(respond, asked + left, q.questions);
    KnownOfConcat(respond, asked, left);
    KnownAtMost(respond, left);
  }

  lemma {:induction false} KnownAtMost(respond: Respondent, questions: seq<Question>)
    ensures Known(respond, questions) <= |questions|
  {
    if questions != [] {
      KnownAtMost(respond, questions[1..]);
    }
  }

  lemma {:induction false} SequenceOf(m: multiset<Question>) returns (s: seq<Question>)
    ensures multiset(s) == m
    decreases |m|
  {
    if m == multiset{} {
      s := [];
    } else {
      var x :| x in m;
      var rest := SequenceOf(m - multiset{x});
      s := [x] + rest;
    }
  }
}
