/** How many recordings are accepted over runs, and what an accepted one does to the verdict
    (src/db.rs, `record_attempt`, with src/bin/ssh-exam-tui.rs). */
module GateCounts {
  import opened Wrappers
  import opened Quizzes
  import opened Tui
  import opened Schema
  import opened Transactions
  import opened Queries
  import opened Commands
  import opened Gate
  import opened GateInvariant
  import opened GateSafety
  import opened GateTheorems
  import opened Effects

  /** What a step hands to `record_attempt`: the answers of a sitting that ends with it. */
  ghost function Handed(s: System, a: Action): Option<AttemptInput> {
    if a.Input? && a.sid in s.sessions && s.sessions[a.sid].Sitting? && InProgress(s.sessions[a.sid].app)
       && Handle(s.sessions[a.sid].app, a.event).Submitted? && NextRow(s.db.attempts, a.row)
    then
      var Sitting(identity, app) := s.sessions[a.sid];
      Some(AttemptOf(identity, app.quiz, Handle(app, a.event).submission))
    else None
  }

  /** The step records an attempt of this person at this exam, and the answer is `Ok`. */
  ghost predicate Accepts(s: System, a: Action, person: int, exam: Exam) {
    && Handed(s, a).Some?
    && Handed(s, a).value.person == person && Handed(s, a).value.exam == exam
    && RecordAttempt(s.db, a.row, a.now, Handed(s, a).value).result.Ok?
  }

  /** A reset or deletion of the person. */
  predicate Clears(a: Action, person: int) {
    a == Administer(Reset(person)) || a == Administer(RemovePerson(person))
  }

  lemma HandedIsRecorded(o: Oracles, s: System, a: Action)
    ensures a.Input? ==>
      Next(o, s, a).db
      == if Handed(s, a).Some? then RecordAttempt(s.db, a.row, a.now, Handed(s, a).value).db else s.db
    ensures Handed(s, a).Some? ==> a.Input? && NextRow(s.db.attempts, a.row)
  {}

  lemma RecordingCounts(db: Db, row: int, now: int, input: AttemptInput, person: int, exam: Exam)
    requires NextRow(db.attempts, row)
    ensures var recorded := RecordAttempt(db, row, now, input);
      |Sittings(recorded.db.attempts, person, exam)|
      == |Sittings(db.attempts, person, exam)|
         + if recorded.result.Ok? && input.person == person && input.exam == exam then 1 else 0
  {
    var recorded := RecordAttempt(db, row, now, input);
    RecordTouches(db, row, now, input);
    if recorded.result.Ok? {
      AcceptedAttemptIsStored(db, row, now, input);
      if !(input.person == person && input.exam == exam) {
        SameSittings(db.attempts, recorded.db.attempts, row, person, exam);
      }
    }
  }

  lemma SameSittings(attempts: map<int, Attempt>, attempts': map<int, Attempt>, row: int, person: int, exam: Exam)
    requires attempts'.Keys == attempts.Keys + {row} && row !in attempts
    requires forall a :: a in attempts ==> attempts'[a] == attempts[a]
    requires !(attempts'[row].person == person && attempts'[row].exam == Some(exam))
    ensures Sittings(attempts', person, exam) == Sittings(attempts, person, exam)
  {
    forall a ensures a in Sittings(attempts', person, exam) <==> a in Sittings(attempts, person, exam) {
      assert a in attempts' <==> a in attempts || a == row;
    }
  }

  lemma CommandCounts(o: Oracles, s: System, c: Command, person: int, exam: Exam)
    requires Inv(o, s) && !Clears(Administer(c), person)
    ensures Sittings(Execute(o.digest, s.db, c).attempts, person, exam) == Sittings(s.db.attempts, person, exam)
  {
    match c {
      case RemoveTest(testId) => DeletingTestErasesNothing(o, s, testId);
      case RemovePerson(id) =>
      case Reset(other) => OtherPersonsReset(s.db, other, person, exam);
      case _ => OtherCommandsKeepAttempts(o.digest, s.db, c);
    }
  }

  lemma OtherPersonsReset(db: Db, other: int, person: int, exam: Exam)
    requires other != person
    ensures Sittings(ResetExam(db, other).db.attempts, person, exam) == Sittings(db.attempts, person, exam)
  {
    var next := ResetExam(db, other).db;
    forall a | a in db.attempts && db.attempts[a].person == person
      ensures a in next.attempts && next.attempts[a] == db.attempts[a]
    {}
  }

  /** Each step adds one sitting exactly if it records one and the answer is `Ok`. */
  lemma StepCounts(o: Oracles, s: System, a: Action, person: int, exam: Exam)
    requires Inv(o, s) && !Clears(a, person)
    ensures |Sittings(Next(o, s, a).db.attempts, person, exam)|
            == |Sittings(s.db.attempts, person, exam)| + if Accepts(s, a, person, exam) then 1 else 0
  {
    HandedIsRecorded(o, s, a);
    if a.Input? {
      if Handed(s, a).Some? {
        RecordingCounts(s.db, a.row, a.now, Handed(s, a).value, person, exam);
      }
    } else if a.Administer? {
      CommandCounts(o, s, a.command, person, exam);
    } else {
      SessionStepEffect(s, a);
      WorkerStepEffect(o, s, a);
    }
  }

  ghost function AcceptedIn(o: Oracles, s: System, actions: seq<Action>, person: int, exam: Exam): nat
    decreases |actions|
  {
    if actions == [] then 0
    else
      (if Accepts(s, actions[0], person, exam) then 1 else 0)
      + AcceptedIn(o, Next(o, s, actions[0]), actions[1..], person, exam)
  }

  /** Nothing that is accepted is lost: over every run without a reset or deletion of the person,
      the stored sittings grow by exactly the recordings that were answered `Ok`. */
  lemma {:induction false} AcceptedRecordingsAreStored(
    o: Oracles, s: System, actions: seq<Action>, person: int, exam: Exam)
    requires Inv(o, s) && forall a :: a in actions ==> !Clears(a, person)
    ensures |Sittings(Run(o, s, actions).db.attempts, person, exam)|
            == |Sittings(s.db.attempts, person, exam)| + AcceptedIn(o, s, actions, person, exam)
    decreases |actions|
  {
    if actions != [] {
      assert actions[0] in actions;
      StepKeepsInv(o, s, actions[0]);
      StepCounts(o, s, actions[0], person, exam);
      AcceptedRecordingsAreStored(o, Next(o, s, actions[0]), actions[1..], person, exam);
    }
  }

  /** So between two resets a person gets at most as many recordings accepted as the exam allows
      attempts, less those stored before. */
  lemma AcceptedRecordingsAreLimited(
    o: Oracles, s: System, actions: seq<Action>, person: int, i: int)
    requires Inv(o, s) && i in s.db.publications && forall a :: a in actions ==> !Clears(a, person)
    ensures var publication := s.db.publications[i];
      |Sittings(s.db.attempts, person, publication.exam)| + AcceptedIn(o, s, actions, person, publication.exam)
      <= publication.quiz.maxAttempts
  {
    AcceptedRecordingsAreStored(o, s, actions, person, s.db.publications[i].exam);
    RunKeepsInv(o, s, actions);
    PublicationsAreAppendOnly(o, s, actions);
    assert i in Run(o, s, actions).db.publications;
  }

  /** The Enter that ends an exam at the active publication, when it is accepted, makes the
      verdict of its person: passed exactly if the marks reach the threshold of the stored quiz. */
  lemma FinalEnterDecidesVerdict(
    o: Oracles, s: System, a: Action, person: int, account: string, fingerprint: string)
    requires Inv(o, s) && s.db.active.Some? && ActiveExam(s.db).Some?
    requires Accepts(s, a, person, ActiveExam(s.db).value)
    requires ResolvePolicy(s.db, account, fingerprint).Ok? && ResolvePolicy(s.db, account, fingerprint).value.Some?
    requires ResolvePolicy(s.db, account, fingerprint).value.value.person == person
    ensures var before := ResolvePolicy(s.db, account, fingerprint).value.value;
      var app := s.sessions[a.sid].app;
      var answers := app.answers + [app.selected];
      && !before.passed && |answers| == |app.quiz.questions|
      && ResolvePolicy(Next(o, s, a).db, account, fingerprint)
         == Ok(Some(before.(passed := Marks(answers, app.quiz.questions) * 100
                                      >= s.db.publications[s.db.active.value].quiz.threshold * |answers|)))
  {
    var input := Handed(s, a).value;
    HandedIsRecorded(o, s, a);
    RecordingDecidesVerdict(s.db, a.row, a.now, input, account, fingerprint);
    HandedMarks(o, s, a);
    AttemptIsAcceptedWhen(s.db, a.row, a.now, input);
  }

  lemma HandedMarks(o: Oracles, s: System, a: Action)
    requires Inv(o, s) && Handed(s, a).Some? && ActiveExam(s.db) == Some(Handed(s, a).value.exam)
    ensures var app := s.sessions[a.sid].app;
      var answers := app.answers + [app.selected];
      && |answers| == |app.quiz.questions|
      && (Handed(s, a).value.passed <==>
            Marks(answers, app.quiz.questions) * 100
            >= s.db.publications[s.db.active.value].quiz.threshold * |answers|)
  {
    var Sitting(identity, app) := s.sessions[a.sid];
    HandleKeepsProgress(app, a.event);
    assert SessionOk(s.db.publications, s.sessions[a.sid]);
    var i :| i in s.db.publications && s.db.publications[i].exam == identity.exam
             && PreparedFrom(s.db.publications[i].quiz, app.quiz);
    assert i == s.db.active.value;
    StoredQuizIsValid(o, s, i);
    ScoreIsExact(s.db.publications[i].quiz, app.quiz, app.answers + [app.selected]);
  }
}
