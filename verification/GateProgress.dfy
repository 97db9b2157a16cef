/** That the steps of the gate protocol lead where they should when nothing else interferes
    (src/bin/ssh-exam-tui.rs with src/db.rs). */
module GateProgress {
  import opened Wrappers
  import opened Quizzes
  import opened Tui
  import opened Schema
  import opened Transactions
  import opened Queries
  import opened Gate
  import opened GateInvariant
  import opened GateSafety
  import opened GateTheorems

  // ---------- an exam from the login to the recording ----------

  function Inputs(sid: int, events: seq<Event>, row: int, now: int): seq<Action> {
    if events == [] then [] else [Input(sid, events[0], row, now)] + Inputs(sid, events[1..], row, now)
  }

  lemma {:induction false} ClosedIgnoresInputs(
    o: Oracles, s: System, sid: int, events: seq<Event>, row: int, now: int)
    requires sid in s.sessions && s.sessions[sid].Closed?
    ensures Run(o, s, Inputs(sid, events, row, now)) == s
    decreases |events|
  {
    if events != [] {
      assert Next(o, s, Input(sid, events[0], row, now)) == s;
      assert Inputs(sid, events, row, now)[1..] == Inputs(sid, events[1..], row, now);
      ClosedIgnoresInputs(o, s, sid, events[1..], row, now);
    }
  }

  /** What the key loop of one terminal makes of its answers is what reaches the database. */
  lemma {:induction false} InputsRecord(
    o: Oracles, s: System, sid: int, identity: Identity, app: App, events: seq<Event>, row: int, now: int)
    requires sid in s.sessions && s.sessions[sid] == Sitting(identity, app) && InProgress(app)
    requires NextRow(s.db.attempts, row) && Drive(app, events).Submitted?
    ensures Run(o, s, Inputs(sid, events, row, now))
            == WithSession(s, sid, Closed).(
                 db := RecordAttempt(s.db, row, now, AttemptOf(identity, app.quiz, Drive(app, events).submission)).db)
    decreases |events|
  {
    var next := Next(o, s, Input(sid, events[0], row, now));
    HandleKeepsProgress(app, events[0]);
    assert Inputs(sid, events, row, now)[1..] == Inputs(sid, events[1..], row, now);
    match Handle(app, events[0]) {
      case Running(later) =>
        assert next == WithSession(s, sid, Sitting(identity, later));
        InputsRecord(o, next, sid, identity, later, events[1..], row, now);
        SessionReplaced(s, sid, Sitting(identity, later), Closed);
      case Submitted(submission) =>
        ClosedIgnoresInputs(o, next, sid, events[1..], row, now);
    }
  }

  lemma SessionReplaced(s: System, sid: int, first: Session, second: Session)
    ensures WithSession(WithSession(s, sid, first), sid, second) == WithSession(s, sid, second)
  {}

  /** The login of a session up to the first question, and what follows. */
  function Login(
    sid: int, account: string, fingerprint: string, prepared: PreparedQuiz, rest: seq<Action>): seq<Action> {
    [Connect(sid, account, fingerprint)] + ([Resolve(sid)] + ([Identify(sid)] + ([Open(sid, prepared)] + rest)))
  }

  /** The identity may sit the active exam. */
  ghost predicate Eligible(db: Db, account: string, fingerprint: string, identity: Identity) {
    && LoadIdentity(db, account, fingerprint) == Ok(Some(identity))
    && !identity.passed && db.active.Some? && db.active.value in db.publications
    && identity.attemptCount < db.publications[db.active.value].quiz.maxAttempts
  }

  lemma FirstStep(o: Oracles, s: System, a: Action, rest: seq<Action>)
    ensures Run(o, s, [a] + rest) == Run(o, Next(o, s, a), rest)
  {
    assert ([a] + rest)[0] == a && ([a] + rest)[1..] == rest;
  }

  /** Where each step of the login leads. */
  lemma LoginSteps(
    o: Oracles, s: System, sid: int, account: string, fingerprint: string, policy: PolicyRecord,
    identity: Identity, prepared: PreparedQuiz)
    requires sid !in s.sessions && ResolvePolicy(s.db, account, fingerprint) == Ok(Some(policy))
    requires ReadIdentity(s.db, policy) == Ok(identity)
    ensures Next(o, s, Connect(sid, account, fingerprint)) == WithSession(s, sid, Connecting(account, fingerprint))
    ensures Next(o, WithSession(s, sid, Connecting(account, fingerprint)), Resolve(sid))
            == WithSession(s, sid, Resolved(policy))
    ensures Next(o, WithSession(s, sid, Resolved(policy)), Identify(sid))
            == WithSession(s, sid, Identified(identity))
    ensures Next(o, WithSession(s, sid, Identified(identity)), Open(sid, prepared))
            == WithSession(s, sid, OpenExam(s.db, identity, prepared))
  {
    SessionReplaced(s, sid, Connecting(account, fingerprint), Resolved(policy));
    SessionReplaced(s, sid, Resolved(policy), Identified(identity));
    SessionReplaced(s, sid, Identified(identity), OpenExam(s.db, identity, prepared));
  }

  lemma LoginOpensExam(
    o: Oracles, s: System, sid: int, account: string, fingerprint: string, identity: Identity,
    prepared: PreparedQuiz, rest: seq<Action>)
    requires sid !in s.sessions && LoadIdentity(s.db, account, fingerprint) == Ok(Some(identity))
    ensures Run(o, s, Login(sid, account, fingerprint, prepared, rest))
            == Run(o, WithSession(s, sid, OpenExam(s.db, identity, prepared)), rest)
  {
    var policy := ResolvePolicy(s.db, account, fingerprint).value.value;
    var last := [Open(sid, prepared)] + rest;
    LoginSteps(o, s, sid, account, fingerprint, policy, identity, prepared);
    FirstStep(o, s, Connect(sid, account, fingerprint), [Resolve(sid)] + ([Identify(sid)] + last));
    FirstStep(o, WithSession(s, sid, Connecting(account, fingerprint)), Resolve(sid), [Identify(sid)] + last);
    FirstStep(o, WithSession(s, sid, Resolved(policy)), Identify(sid), last);
    FirstStep(o, WithSession(s, sid, Identified(identity)), Open(sid, prepared), rest);
  }

  lemma EligibleOpens(
    o: Oracles, s: System, account: string, fingerprint: string, identity: Identity, prepared: PreparedQuiz)
    requires Inv(o, s) && HexHash(o.hash) && Eligible(s.db, account, fingerprint, identity)
    requires PreparedFrom(s.db.publications[s.db.active.value].quiz, prepared)
    ensures OpenExam(s.db, identity, prepared) == Sitting(identity, Start(prepared))
  {
    ActiveTestIsPublished(o, s);
    IdentityMeans(s.db, account, fingerprint, identity);
  }

  /** Whoever may sit the exam can: log in, give any complete list of legal answers to any
      preparation of the published quiz, and the attempt is recorded as the next one, with the
      score of these answers; nothing else changes. */
  lemma EligibleCanSit(
    o: Oracles, s: System, sid: int, account: string, fingerprint: string, identity: Identity,
    prepared: PreparedQuiz, answers: seq<nat>, row: int, now: int) returns (actions: seq<Action>)
    requires Inv(o, s) && HexHash(o.hash) && sid !in s.sessions && Eligible(s.db, account, fingerprint, identity)
    requires PreparedFrom(s.db.publications[s.db.active.value].quiz, prepared)
    requires |answers| == |prepared.questions| && Legal(prepared, answers) && NextRow(s.db.attempts, row)
    ensures ScoreAnswers(prepared, answers).Scored?
    ensures var submission := Submission(answers, ScoreAnswers(prepared, answers).score);
      var recorded := RecordAttempt(s.db, row, now, AttemptOf(identity, prepared, submission));
      && recorded.result == Ok(identity.attemptCount + 1)
      && Run(o, s, actions) == WithSession(s, sid, Closed).(db := recorded.db)
  {
    var quiz := s.db.publications[s.db.active.value].quiz;
    StoredQuizIsValid(o, s, s.db.active.value);
    PreparedShape(quiz, prepared);
    var events := EveryAnswerCanBeGiven(prepared, answers);
    DriveIsSafe(Start(prepared), events);
    var open := WithSession(s, sid, Sitting(identity, Start(prepared)));
    actions := Login(sid, account, fingerprint, prepared, Inputs(sid, events, row, now));
    EligibleOpens(o, s, account, fingerprint, identity, prepared);
    LoginOpensExam(o, s, sid, account, fingerprint, identity, prepared, Inputs(sid, events, row, now));
    InputsRecord(o, open, sid, identity, Start(prepared), events, row, now);
    SessionReplaced(s, sid, Sitting(identity, Start(prepared)), Closed);
    EligibleIsRecorded(o, s, account, fingerprint, identity, prepared, answers, row, now);
  }

  lemma EligibleIsRecorded(
    o: Oracles, s: System, account: string, fingerprint: string, identity: Identity, prepared: PreparedQuiz,
    answers: seq<nat>, row: int, now: int)
    requires Inv(o, s) && HexHash(o.hash) && Eligible(s.db, account, fingerprint, identity)
    requires PreparedFrom(s.db.publications[s.db.active.value].quiz, prepared) && |answers| == |prepared.questions|
    ensures ScoreAnswers(prepared, answers).Scored?
    ensures RecordAttempt(s.db, row, now,
              AttemptOf(identity, prepared, Submission(answers, ScoreAnswers(prepared, answers).score))).result
            == Ok(identity.attemptCount + 1)
  {
    ActiveTestIsPublished(o, s);
    IdentityMeans(s.db, account, fingerprint, identity);
    OpeningAgreesWithRecording(o, s, account, fingerprint, identity, prepared, answers, row, now);
  }

  // ---------- publishing and the carry-over ----------

  /** Publishing a quiz that matches its test makes it the active exam. */
  lemma PublishingActivates(o: Oracles, s: System, wid: int, testId: string, quiz: Quiz, row: int)
    requires Inv(o, s) && wid !in s.workers && row !in s.db.publications
    requires testId in s.db.tests && Valid(quiz) && Matches(quiz, s.db.tests[testId])
    ensures ActiveExam(Run(o, s, [ReadTest(wid, testId, quiz)] + [CommitPublication(wid, row)]).db)
            == Some(Exam(testId, o.hash(Source(testId, s.db.tests[testId].bankIds, quiz))))
  {
    var source := Source(testId, s.db.tests[testId].bankIds, quiz);
    ReadStepIs(o, s, wid, testId, quiz);
    FirstStep(o, s, ReadTest(wid, testId, quiz), [CommitPublication(wid, row)]);
    CommitRun(o, s.(workers := s.workers[wid := Publishing(source)]), wid, row);
  }

  lemma CommitRun(o: Oracles, s: System, wid: int, row: int)
    requires wid in s.workers && s.workers[wid].Publishing? && row !in s.db.publications
    requires s.workers[wid].source.testId in s.db.tests
    ensures ActiveExam(Run(o, s, [CommitPublication(wid, row)]).db)
            == Some(Exam(s.workers[wid].source.testId, o.hash(s.workers[wid].source)))
  {
    FirstStep(o, s, CommitPublication(wid, row), []);
    assert [CommitPublication(wid, row)] + [] == [CommitPublication(wid, row)];
    CommitActivates(o, s, wid, row);
  }

  lemma ReadStepIs(o: Oracles, s: System, wid: int, testId: string, quiz: Quiz)
    requires TestsOk(s.db) && wid !in s.workers
    requires testId in s.db.tests && Valid(quiz) && Matches(quiz, s.db.tests[testId])
    ensures Next(o, s, ReadTest(wid, testId, quiz))
            == s.(workers := s.workers[wid := Publishing(Source(testId, s.db.tests[testId].bankIds, quiz))])
  {
    assert ValidTest(testId, s.db.tests[testId]);
  }

  /** A carry-over that nothing interrupts gives every holder of a legacy pass a pass for the active
      exam and clears the legacy passes. */
  lemma CarryOverCompletes(o: Oracles, s: System, wid: int)
    requires Inv(o, s) && HexHash(o.hash) && wid !in s.workers && s.db.active.Some?
    ensures ActiveExam(s.db).Some?
    ensures Run(o, s, [ReadActive(wid)] + ([CarryOver(wid)] + [ClearLegacy(wid)])).db
            == ClearLegacyPasses(CarryPasses(s.db, ActiveExam(s.db).value))
  {
    ActiveTestIsPublished(o, s);
    var exam := ActiveExam(s.db).value;
    var read := s.(workers := s.workers[wid := Carrying(exam)]);
    assert Next(o, s, ReadActive(wid)) == read;
    FirstStep(o, s, ReadActive(wid), [CarryOver(wid)] + [ClearLegacy(wid)]);
    CarryAndClear(o, read, wid);
  }

  lemma CarryAndClear(o: Oracles, s: System, wid: int)
    requires wid in s.workers && s.workers[wid].Carrying?
    ensures Run(o, s, [CarryOver(wid)] + [ClearLegacy(wid)]).db
            == ClearLegacyPasses(CarryPasses(s.db, s.workers[wid].exam))
  {
    var carried := Next(o, s, CarryOver(wid));
    LegacyStepsAre(o, s, wid);
    LegacyStepsAre(o, carried, wid);
    FirstStep(o, s, CarryOver(wid), [ClearLegacy(wid)]);
    FirstStep(o, carried, ClearLegacy(wid), []);
    assert [ClearLegacy(wid)] + [] == [ClearLegacy(wid)];
  }
}
