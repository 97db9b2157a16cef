/** The terminal exam: key handling and submission (src/bin/ssh-exam-tui.rs). */
module Tui {
  import opened Wrappers
  import opened Text
  import opened Quizzes

  datatype Key = Esc | ArrowUp | ArrowDown | Enter | Char(c: char) | OtherKey

  /** `Ignored` covers resizing, key releases and every event that is not a key press. */
  datatype Event = Press(key: Key) | Ignored

  datatype App = App(quiz: PreparedQuiz, questionIndex: nat, selected: nat, answers: seq<nat>)

  /** What a completed exam hands to `record_attempt`. */
  datatype Submission = Submission(answers: seq<nat>, score: Score)

  datatype Outcome = Running(app: App) | Left | Submitted(submission: Submission)

  function Start(quiz: PreparedQuiz): App { App(quiz, 0, 0, []) }

  predicate Presentable(quiz: PreparedQuiz) {
    && 1 <= |quiz.questions| <= 200
    && forall i :: 0 <= i < |quiz.questions| ==> 2 <= |quiz.questions[i].choices| <= 20
  }

  /** Every stored answer names a choice of its question. */
  predicate Legal(quiz: PreparedQuiz, answers: seq<nat>) {
    && |answers| <= |quiz.questions|
    && forall i :: 0 <= i < |answers| ==> answers[i] < |quiz.questions[i].choices|
  }

  /** The state between two events of an unfinished exam. */
  predicate InProgress(app: App) {
    && Presentable(app.quiz)
    && app.questionIndex == |app.answers| < |app.quiz.questions|
    && app.selected < |app.quiz.questions[app.questionIndex].choices|
    && Legal(app.quiz, app.answers)
  }

  predicate IsQuit(e: Event) { e == Press(Esc) || e == Press(Char('q')) }

  predicate IsEnter(e: Event) { e == Press(Enter) }

  function Submit(app: App): Outcome {
    var answers := app.answers + [app.selected];
    if |answers| < |app.quiz.questions| then
      Running(app.(answers := answers, questionIndex := app.questionIndex + 1, selected := 0))
    else
      match ScoreAnswers(app.quiz, answers)
      case Scored(score) => Submitted(Submission(answers, score))
      case _ => Left
  }

  function Select(app: App, key: Key): App
    requires app.questionIndex < |app.quiz.questions|
    requires |app.quiz.questions[app.questionIndex].choices| > 0
  {
    var count := |app.quiz.questions[app.questionIndex].choices|;
    if key == ArrowUp || key == Char('k') then
      app.(selected := if app.selected == 0 then 0 else app.selected - 1)
    else if key == ArrowDown || key == Char('j') then
      app.(selected := if app.selected + 1 < count - 1 then app.selected + 1 else count - 1)
    else if key.Char? && IsDigit(key.c) && key.c != '0' && key.c as int - '0' as int - 1 < count then
      app.(selected := key.c as int - '0' as int - 1)
    else app
  }

  function Handle(app: App, e: Event): Outcome
    requires InProgress(app)
  {
    if IsQuit(e) then Left
    else if e.Ignored? then Running(app)
    else if e.key == Enter then Submit(app)
    else Running(Select(app, e.key))
  }

  /** An event keeps an unfinished exam in progress, or ends it; a submission carries a legal
      answer to every question, in order, with its score. */
  lemma HandleKeepsProgress(app: App, e: Event)
    requires InProgress(app)
    ensures Handle(app, e).Running? ==>
      && InProgress(Handle(app, e).app) && Handle(app, e).app.quiz == app.quiz
      && Handle(app, e).app.answers == if IsEnter(e) then app.answers + [app.selected] else app.answers
    ensures Handle(app, e).Submitted? ==>
      && Complete(app.quiz, Handle(app, e).submission)
      && Handle(app, e).submission.answers == app.answers + [app.selected]
    ensures Handle(app, e).Left? <==> e == Press(Esc) || e == Press(Char('q'))
    ensures Handle(app, e).Submitted? <==> IsEnter(e) && |app.answers| + 1 == |app.quiz.questions|
  {
    if IsEnter(e) {
      var answers := app.answers + [app.selected];
      assert WrapU32(|app.quiz.questions|) == |app.quiz.questions|;
    }
  }

  predicate Complete(quiz: PreparedQuiz, s: Submission) {
    && |s.answers| == |quiz.questions| && Legal(quiz, s.answers)
    && ScoreAnswers(quiz, s.answers) == Scored(s.score)
  }

  /** The whole key loop: it stops at the first quit or submission. */
  function Drive(app: App, events: seq<Event>): Outcome
    requires InProgress(app)
    decreases |events|
  {
    if events == [] then Running(app)
    else
      HandleKeepsProgress(app, events[0]);
      match Handle(app, events[0])
      case Running(next) => Drive(next, events[1..])
      case done => done
  }

  /** How often Enter is pressed before the exam is left. */
  function EntersBeforeQuit(events: seq<Event>): nat {
    if events == [] || IsQuit(events[0]) then 0
    else (if IsEnter(events[0]) then 1 else 0) + EntersBeforeQuit(events[1..])
  }

  predicate QuitsWithin(events: seq<Event>) { exists i :: 0 <= i < |events| && IsQuit(events[i]) }

  /** For every key sequence: the exam is submitted exactly when Enter is pressed once per
      question before any quit key, and then with a complete list of legal answers and their
      score; it is left without a submission exactly when a quit key comes first; otherwise
      it is still in progress with one answer per Enter. */
  lemma {:induction false} DriveIsSafe(app: App, events: seq<Event>)
    requires InProgress(app)
    ensures var missing := |app.quiz.questions| - |app.answers|;
      && (Drive(app, events).Submitted? <==> EntersBeforeQuit(events) >= missing)
      && (Drive(app, events).Left? <==> EntersBeforeQuit(events) < missing && QuitsWithin(events))
    ensures Drive(app, events).Submitted? ==>
      && Complete(app.quiz, Drive(app, events).submission)
      && app.answers <= Drive(app, events).submission.answers
    ensures Drive(app, events).Running? ==>
      && InProgress(Drive(app, events).app) && Drive(app, events).app.quiz == app.quiz
      && app.answers <= Drive(app, events).app.answers
      && |Drive(app, events).app.answers| == |app.answers| + EntersBeforeQuit(events)
    decreases |events|
  {
    if events != [] {
      HandleKeepsProgress(app, events[0]);
      if Handle(app, events[0]).Running? {
        DriveIsSafe(Handle(app, events[0]).app, events[1..]);
        assert QuitsWithin(events) <==> QuitsWithin(events[1..]) by {
          if QuitsWithin(events) {
            var i :| 0 <= i < |events| && IsQuit(events[i]);
            assert IsQuit(events[1..][i - 1]);
          }
          if QuitsWithin(events[1..]) {
            var i :| 0 <= i < |events[1..]| && IsQuit(events[1..][i]);
            assert IsQuit(events[i + 1]);
          }
        }
      } else if IsQuit(events[0]) {
        assert QuitsWithin(events);
      }
    }
  }

  // ---------- what the keys do ----------

  function DigitKey(d: nat): Key
    requires 1 <= d <= 9
  {
    Char(['1', '2', '3', '4', '5', '6', '7', '8', '9'][d - 1])
  }

  /** Down and `j` move to the next choice and stop at the last, Up and `k` move to the previous one
      and stop at the first, a digit goes to the choice with that number if there is one, and no
      other key but Enter and the quit keys does anything. */
  lemma KeysMoveSelection(app: App, key: Key)
    requires InProgress(app) && key !in {Esc, Char('q'), Enter}
    ensures Handle(app, Press(key)).Running?
    ensures var count, next := |app.quiz.questions[app.questionIndex].choices|, Handle(app, Press(key)).app;
      && next == app.(selected := next.selected)
      && (key in {ArrowDown, Char('j')} ==>
            next.selected == if app.selected == count - 1 then app.selected else app.selected + 1)
      && (key in {ArrowUp, Char('k')} ==>
            next.selected == if app.selected == 0 then app.selected else app.selected - 1)
      && (forall d :: 1 <= d <= 9 && key == DigitKey(d) ==>
            next.selected == if d <= count then d - 1 else app.selected)
      && (key !in {ArrowDown, Char('j'), ArrowUp, Char('k')} && (forall d :: 1 <= d <= 9 ==> key != DigitKey(d)) ==>
            next.selected == app.selected)
  {
    if key.Char? && IsDigit(key.c) && key.c != '0' {
      assert key == DigitKey(key.c as int - '0' as int);
    }
  }

  /** Some key presses down, then Enter, for each question. */
  function Keystrokes(downs: seq<nat>): seq<Event> {
    if downs == [] then [] else Downs(downs[0]) + [Press(Enter)] + Keystrokes(downs[1..])
  }

  function Downs(n: nat): seq<Event> { if n == 0 then [] else [Press(ArrowDown)] + Downs(n - 1) }

  function Least(a: nat, b: nat): nat { if a <= b then a else b }

  lemma {:induction false} DownsMove(app: App, n: nat, rest: seq<Event>)
    requires InProgress(app)
    ensures var last := |app.quiz.questions[app.questionIndex].choices| - 1;
      && InProgress(app.(selected := Least(app.selected + n, last)))
      && Drive(app, Downs(n) + rest) == Drive(app.(selected := Least(app.selected + n, last)), rest)
    decreases n
  {
    if n == 0 {
      assert Downs(n) + rest == rest;
    } else {
      var events := Downs(n) + rest;
      KeysMoveSelection(app, ArrowDown);
      assert events[0] == Press(ArrowDown) && events[1..] == Downs(n - 1) + rest;
      HandleKeepsProgress(app, events[0]);
      DownsMove(Handle(app, events[0]).app, n - 1, rest);
    }
  }

  /** The choices that the remaining questions get: as many down as pressed, at most the last. */
  function Chosen(quiz: PreparedQuiz, index: nat, downs: seq<nat>): seq<nat>
    requires Presentable(quiz) && index + |downs| <= |quiz.questions|
  {
    seq(|downs|, i requires 0 <= i < |downs| => Least(downs[i], |quiz.questions[index + i].choices| - 1))
  }

  lemma OneQuestion(app: App, downs: nat, rest: seq<Event>)
    requires InProgress(app) && app.selected == 0
    ensures var choice := Least(downs, |app.quiz.questions[app.questionIndex].choices| - 1);
      var outcome := Drive(app, Downs(downs) + ([Press(Enter)] + rest));
      var next := App(app.quiz, app.questionIndex + 1, 0, app.answers + [choice]);
      if |app.answers| + 1 == |app.quiz.questions|
      then outcome.Submitted? && outcome.submission.answers == next.answers
      else InProgress(next) && outcome == Drive(next, rest)
  {
    var choice := Least(downs, |app.quiz.questions[app.questionIndex].choices| - 1);
    var moved := app.(selected := choice);
    DownsMove(app, downs, [Press(Enter)] + rest);
    HandleKeepsProgress(moved, Press(Enter));
    assert ([Press(Enter)] + rest)[1..] == rest;
  }

  lemma ChosenStep(quiz: PreparedQuiz, index: nat, downs: seq<nat>)
    requires Presentable(quiz) && downs != [] && index + |downs| <= |quiz.questions|
    ensures Chosen(quiz, index, downs)
            == [Least(downs[0], |quiz.questions[index].choices| - 1)] + Chosen(quiz, index + 1, downs[1..])
  {}

  lemma {:induction false} KeystrokesAnswer(app: App, downs: seq<nat>)
    requires InProgress(app) && app.selected == 0
    requires |app.answers| + |downs| == |app.quiz.questions|
    ensures Drive(app, Keystrokes(downs)).Submitted?
    ensures Drive(app, Keystrokes(downs)).submission.answers
            == app.answers + Chosen(app.quiz, |app.answers|, downs)
    decreases |downs|
  {
    var rest := Keystrokes(downs[1..]);
    assert Keystrokes(downs) == Downs(downs[0]) + ([Press(Enter)] + rest);
    OneQuestion(app, downs[0], rest);
    ChosenStep(app.quiz, |app.answers|, downs);
    if |downs| > 1 {
      var choice := Least(downs[0], |app.quiz.questions[app.questionIndex].choices| - 1);
      KeystrokesAnswer(App(app.quiz, app.questionIndex + 1, 0, app.answers + [choice]), downs[1..]);
    }
  }

  /** For every question some presses of Down, then Enter: exactly those choices are submitted, with
      their score. */
  lemma KeystrokesAreSubmitted(quiz: PreparedQuiz, downs: seq<nat>)
    requires Presentable(quiz) && |downs| == |quiz.questions|
    ensures InProgress(Start(quiz))
    ensures Drive(Start(quiz), Keystrokes(downs)).Submitted?
    ensures var s := Drive(Start(quiz), Keystrokes(downs)).submission;
      && Complete(quiz, s)
      && forall i :: 0 <= i < |downs| ==>
           s.answers[i] == if downs[i] < |quiz.questions[i].choices| then downs[i] else |quiz.questions[i].choices| - 1
  {
    KeystrokesAnswer(Start(quiz), downs);
    DriveIsSafe(Start(quiz), Keystrokes(downs));
  }

  /** Every complete list of legal answers can be submitted. */
  lemma EveryAnswerCanBeGiven(quiz: PreparedQuiz, answers: seq<nat>) returns (events: seq<Event>)
    requires Presentable(quiz) && |answers| == |quiz.questions| && Legal(quiz, answers)
    ensures InProgress(Start(quiz)) && Drive(Start(quiz), events).Submitted?
    ensures Drive(Start(quiz), events).submission.answers == answers
  {
    events := Keystrokes(answers);
    KeystrokesAreSubmitted(quiz, answers);
  }

  /** The running program: one exam, updated in place. */
  class ExamApp {
    const quiz: PreparedQuiz
    var questionIndex: nat
    var selected: nat
    var answers: seq<nat>
    var result: Option<Score>

    function Value(): App
      reads this
    {
      App(quiz, questionIndex, selected, answers)
    }

    constructor (quiz: PreparedQuiz)
      ensures this.quiz == quiz && Value() == Start(quiz) && result == None
    {
      this.quiz := quiz;
      questionIndex, selected, answers, result := 0, 0, [], None;
    }

    /** Pushes the selected answer; after the last one scores the exam and hands it to the
        database, which accepts it or not. Only an accepted exam gets a result. */
    method SubmitAnswer(accepted: bool) returns (handed: Option<Submission>)
      requires InProgress(Value()) && result == None
      modifies this
      ensures handed == (match Submit(old(Value())) case Submitted(s) => Some(s) case _ => None)
      ensures Submit(old(Value())).Running? ==> Value() == Submit(old(Value())).app
      ensures result == if handed.Some? && accepted then Some(handed.value.score) else None
      ensures !Submit(old(Value())).Left?
    {
      HandleKeepsProgress(Value(), Press(Enter));
      answers := answers + [selected];
      if |answers| < |quiz.questions| {
        questionIndex := questionIndex + 1;
        selected := 0;
        return None;
      }
      var scored := ScoreAnswers(quiz, answers);
      handed := Some(Submission(answers, scored.score));
      if accepted {
        result := Some(scored.score);
      }
    }

    /** The event loop. `records` lists what was handed to the database; `accepted` is the
        database's answer, and a refusal ends the program. */
    method Run(events: seq<Event>, accepted: bool) returns (records: seq<Submission>)
      requires InProgress(Value()) && result == None
      modifies this
      ensures records == (match Drive(old(Value()), events) case Submitted(s) => [s] case _ => [])
      ensures |records| <= 1
      ensures result == if accepted && records != [] then Some(records[0].score) else None
      ensures Drive(old(Value()), events).Running? ==> Value() == Drive(old(Value()), events).app
    {
      records := [];
      var next := 0;
      while next < |events| && result == None
        invariant 0 <= next <= |events|
        invariant result == None ==>
          && InProgress(Value()) && records == []
          && Drive(old(Value()), events) == Drive(Value(), events[next..])
        invariant result.Some? ==>
          && accepted && |records| == 1 && result == Some(records[0].score)
          && Drive(old(Value()), events) == Submitted(records[0])
      {
        var e := events[next];
        assert events[next..][1..] == events[next + 1..];
        HandleKeepsProgress(Value(), e);
        next := next + 1;
        match e {
          case Ignored =>
          case Press(key) =>
            if key == Esc || key == Char('q') {
              return;
            } else if key == Enter {
              var handed := SubmitAnswer(accepted);
              if handed.Some? {
                records := records + [handed.value];
                if !accepted {
                  return;
                }
              }
            } else {
              var count := |quiz.questions[questionIndex].choices|;
              if key == ArrowUp || key == Char('k') {
                selected := if selected == 0 then 0 else selected - 1;
              } else if key == ArrowDown || key == Char('j') {
                var last := count - 1;
                selected := if selected + 1 < last then selected + 1 else last;
              } else if key.Char? && IsDigit(key.c) && key.c != '0' {
                var chosen := key.c as int - '0' as int - 1;
                if chosen < count {
                  selected := chosen;
                }
              }
            }
        }
      }
    }
  }
}
