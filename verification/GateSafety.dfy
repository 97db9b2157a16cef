/** Every step of the gate protocol keeps the invariant, and what follows for every run. */
module GateSafety {
  import opened Wrappers
  import opened Quizzes
  import opened Tui
  import opened Schema
  import opened Transactions
  import opened Queries
  import opened Commands
  import opened Keys
  import opened Gate
  import opened GateInvariant

  // ---------- sessions ----------

  lemma ActiveIsPublished(db: Db)
    requires Constraints(db) && ActiveExam(db).Some?
    ensures Published(db.publications, ActiveExam(db).value)
  {
    var i := db.active.value;
    assert i in db.publications && db.publications[i].exam == ActiveExam(db).value;
  }

  lemma ResolvedIsPublished(db: Db, account: string, fingerprint: string)
    requires Constraints(db)
    ensures var r := ResolvePolicy(db, account, fingerprint);
            r.Ok? && r.value.Some? ==> Published(db.publications, r.value.value.exam)
  {
    if ActiveExam(db).Some? {
      ActiveIsPublished(db);
    }
  }

  lemma StartIsInProgress(quiz: Quiz, prepared: PreparedQuiz)
    requires Valid(quiz) && PreparedFrom(quiz, prepared)
    ensures InProgress(Start(prepared))
  {
    PreparedShape(quiz, prepared);
  }

  lemma OpenExamOk(o: Oracles, s: System, identity: Identity, prepared: PreparedQuiz)
    requires Inv(o, s) && Published(s.db.publications, identity.exam)
    ensures SessionOk(s.db.publications, OpenExam(s.db, identity, prepared))
  {
    var session := OpenExam(s.db, identity, prepared);
    if session.Sitting? {
      var i := s.db.active.value;
      assert i in s.db.publications && s.db.publications[i].exam == identity.exam;
      StartIsInProgress(s.db.publications[i].quiz, prepared);
    }
  }

  lemma SessionChangeKeepsInv(o: Oracles, s: System, sid: int, session: Session)
    requires Inv(o, s) && SessionOk(s.db.publications, session)
    ensures Inv(o, WithSession(s, sid, session))
  {}

  /** A completed exam carries the score of its answers on the quiz of its publication, and
      that publication's attempt limit. */
  lemma SubmissionIsBacked(o: Oracles, s: System, identity: Identity, app: App, event: Event)
    requires Inv(o, s) && SittingOk(s.db.publications, identity, app)
    requires Handle(app, event).Submitted?
    ensures var input := AttemptOf(identity, app.quiz, Handle(app, event).submission);
      && Backed(s.db.publications, NewAttempt(input))
      && (forall i :: i in s.db.publications && s.db.publications[i].exam == input.exam ==>
            s.db.publications[i].quiz.maxAttempts == input.maxAttempts)
  {
    HandleKeepsProgress(app, event);
    var submission := Handle(app, event).submission;
    var input := AttemptOf(identity, app.quiz, submission);
    var i :| i in s.db.publications && s.db.publications[i].exam == identity.exam
             && PreparedFrom(s.db.publications[i].quiz, app.quiz);
    assert ScoredOn(s.db.publications[i].quiz, app.quiz, NewAttempt(input));
  }

  lemma RecordKeepsInv(o: Oracles, s: System, row: int, now: int, input: AttemptInput)
    requires Inv(o, s) && NextRow(s.db.attempts, row)
    requires Backed(s.db.publications, NewAttempt(input))
    requires forall i :: i in s.db.publications && s.db.publications[i].exam == input.exam ==>
      s.db.publications[i].quiz.maxAttempts == input.maxAttempts
    ensures Inv(o, s.(db := RecordAttempt(s.db, row, now, input).db))
  {
    var recorded := RecordAttempt(s.db, row, now, input);
    RecordTouches(s.db, row, now, input);
    RecordKeepsConstraints(s.db, row, now, input);
    if recorded.result.Ok? {
      RecordKeepsHistory(s.db, s.carried, row, now, input);
    }
    PeopleChangeKeepsInv(o, s, recorded.db, s.carried);
    assert s.(db := recorded.db) == s.(db := recorded.db, carried := s.carried);
  }

  lemma InputKeepsInv(o: Oracles, s: System, sid: int, event: Event, row: int, now: int)
    requires Inv(o, s) && sid in s.sessions && s.sessions[sid].Sitting?
    ensures Inv(o, InputStep(s, sid, event, row, now))
  {
    var Sitting(identity, app) := s.sessions[sid];
    assert SessionOk(s.db.publications, s.sessions[sid]);
    HandleKeepsProgress(app, event);
    match Handle(app, event) {
      case Running(next) =>
        var i :| i in s.db.publications && s.db.publications[i].exam == identity.exam
                 && PreparedFrom(s.db.publications[i].quiz, app.quiz);
        assert SessionOk(s.db.publications, Sitting(identity, next));
        SessionChangeKeepsInv(o, s, sid, Sitting(identity, next));
      case Left =>
        SessionChangeKeepsInv(o, s, sid, Closed);
      case Submitted(submission) =>
        if NextRow(s.db.attempts, row) {
          var input := AttemptOf(identity, app.quiz, submission);
          SubmissionIsBacked(o, s, identity, app, event);
          RecordKeepsInv(o, s, row, now, input);
          SessionChangeKeepsInv(o, s.(db := RecordAttempt(s.db, row, now, input).db), sid, Closed);
        }
    }
  }

  lemma ResolveKeepsInv(o: Oracles, s: System, sid: int)
    requires Inv(o, s) && sid in s.sessions && s.sessions[sid].Connecting?
    ensures Inv(o, SessionStep(s, Resolve(sid)))
  {
    var resolved := ResolvePolicy(s.db, s.sessions[sid].account, s.sessions[sid].fingerprint);
    ResolvedIsPublished(s.db, s.sessions[sid].account, s.sessions[sid].fingerprint);
    match resolved {
      case Ok(Some(policy)) => SessionChangeKeepsInv(o, s, sid, Resolved(policy));
      case _ => SessionChangeKeepsInv(o, s, sid, Closed);
    }
  }

  lemma IdentifyKeepsInv(o: Oracles, s: System, sid: int)
    requires Inv(o, s) && sid in s.sessions && s.sessions[sid].Resolved?
    ensures Inv(o, SessionStep(s, Identify(sid)))
  {
    assert SessionOk(s.db.publications, s.sessions[sid]);
    match ReadIdentity(s.db, s.sessions[sid].policy) {
      case Ok(identity) => SessionChangeKeepsInv(o, s, sid, Identified(identity));
      case Err(_) => SessionChangeKeepsInv(o, s, sid, Closed);
    }
  }

  lemma OpenKeepsInv(o: Oracles, s: System, sid: int, prepared: PreparedQuiz)
    requires Inv(o, s) && sid in s.sessions && s.sessions[sid].Identified?
    ensures Inv(o, SessionStep(s, Open(sid, prepared)))
  {
    assert SessionOk(s.db.publications, s.sessions[sid]);
    var identity := s.sessions[sid].identity;
    OpenExamOk(o, s, identity, prepared);
    SessionChangeKeepsInv(o, s, sid, OpenExam(s.db, identity, prepared));
  }

  lemma SessionStepKeepsInv(o: Oracles, s: System, a: Action)
    requires Inv(o, s)
    ensures Inv(o, SessionStep(s, a))
  {
    if a.Connect? {
      SessionChangeKeepsInv(o, s, a.sid, Connecting(a.account, a.fingerprint));
    } else if a.Resolve? && a.sid in s.sessions && s.sessions[a.sid].Connecting? {
      ResolveKeepsInv(o, s, a.sid);
    } else if a.Identify? && a.sid in s.sessions && s.sessions[a.sid].Resolved? {
      IdentifyKeepsInv(o, s, a.sid);
    } else if a.Open? && a.sid in s.sessions && s.sessions[a.sid].Identified? {
      OpenKeepsInv(o, s, a.sid, a.prepared);
    } else if a.Input? && a.sid in s.sessions && s.sessions[a.sid].Sitting? {
      InputKeepsInv(o, s, a.sid, a.event, a.row, a.now);
    } else {
      assert SessionStep(s, a) == s;
    }
  }

  // ---------- administrators ----------

  lemma RemovingCommandRemovesWhole(digest: Digest, db: Db, c: Command)
    requires Removes(c)
    ensures RemovesWholeSittings(db, Execute(digest, db, c))
  {
    match c {
      case RemovePerson(id) => DeletePersonRemovesWhole(db, id);
      case RemoveTest(testId) => DeleteTestRemovesWhole(db, testId);
      case Reset(person) => ResetRemovesWhole(db, person);
    }
  }

  lemma CommandRemovesWhole(digest: Digest, db: Db, c: Command)
    ensures RemovesWholeSittings(db, Execute(digest, db, c))
  {
    if Removes(c) {
      RemovingCommandRemovesWhole(digest, db, c);
    } else {
      OtherCommandsKeepAttempts(digest, db, c);
    }
  }

  lemma AdminStepKeepsInv(o: Oracles, s: System, c: Command)
    requires Inv(o, s)
    ensures Inv(o, AdminStep(o, s, c))
  {
    if RowIdsAreFree(s.db, c) {
      CommandKeepsConstraints(o.digest, s.db, c);
      CommandKeepsExams(o.digest, s.db, c);
      CommandRemovesWhole(o.digest, s.db, c);
      RemovalKeepsHistory(s.db, Execute(o.digest, s.db, c), s.carried);
    }
  }

  // ---------- publishing and the carry-over ----------

  lemma BackedHasExam(db: Db, attempt: Attempt)
    requires Backed(db.publications, attempt)
    ensures HasExam(db, attempt.exam.value)
  {
    var i, prepared :| i in db.publications && attempt.exam == Some(db.publications[i].exam)
                       && ScoredOn(db.publications[i].quiz, prepared, attempt);
    assert i in db.publications && db.publications[i].exam == attempt.exam.value;
  }

  /** Nobody has sat an exam that was never published. */
  lemma SittingsNeedPublication(db: Db, p: int, exam: Exam)
    requires AttemptsBacked(db) && Sittings(db.attempts, p, exam) != {}
    ensures HasExam(db, exam)
  {
    var sittings := Sittings(db.attempts, p, exam);
    assert (forall a :: a !in sittings) ==> sittings == {};
    var a :| a in sittings;
    BackedHasExam(db, db.attempts[a]);
  }

  lemma PublishingKeepsHistory(db: Db, later: Db, carried: set<PassKey>, row: int, publication: Publication)
    requires History(db, carried) && row !in db.publications && !HasExam(db, publication.exam)
    requires later == db.(publications := db.publications[row := publication], active := later.active)
    ensures History(later, carried)
  {
    forall a | a in later.attempts && later.attempts[a].exam.Some?
      ensures Backed(later.publications, later.attempts[a])
    {
      BackingStays(db.publications, later.publications, db.attempts[a]);
    }
    forall p, i | i in later.publications
      ensures |Sittings(later.attempts, p, later.publications[i].exam)| <= later.publications[i].quiz.maxAttempts
    {
      if i == row && Sittings(db.attempts, p, publication.exam) != {} {
        SittingsNeedPublication(db, p, publication.exam);
      }
    }
  }

  lemma CommitKeepsHistory(db: Db, carried: set<PassKey>, row: int, revision: string, source: Source)
    requires History(db, carried) && row !in db.publications
    ensures History(Publish(db, row, revision, source).db, carried)
    ensures Extends(db.publications, Publish(db, row, revision, source).db.publications)
  {
    var later := Publish(db, row, revision, source).db;
    var exam := Exam(source.testId, revision);
    if later.publications != db.publications {
      PublishingKeepsHistory(db, later, carried, row, Publication(exam, source.quiz));
    }
  }

  lemma CommitKeepsPublications(o: Oracles, s: System, wid: int, row: int)
    requires PublicationsOk(o, s.db.publications, s.origins) && WorkersOk(s.db.publications, s.workers)
    requires wid in s.workers && s.workers[wid].Publishing? && row !in s.db.publications
    ensures var s' := CommitStep(o, s, wid, row); PublicationsOk(o, s'.db.publications, s'.origins)
  {
    assert WorkerOk(s.db.publications, s.workers[wid]);
  }

  lemma CommitKeepsInv(o: Oracles, s: System, wid: int, row: int)
    requires Inv(o, s)
    requires wid in s.workers && s.workers[wid].Publishing? && row !in s.db.publications
    ensures Inv(o, CommitStep(o, s, wid, row))
  {
    var source := s.workers[wid].source;
    var later := Publish(s.db, row, o.hash(source), source).db;
    CommitKeepsPublications(o, s, wid, row);
    PublishKeepsConstraints(s.db, row, o.hash(source), source);
    CommitKeepsHistory(s.db, s.carried, row, o.hash(source), source);
    MemoryStaysOk(s.db.publications, later.publications, s.sessions, s.workers);
  }

  lemma WorkerChangeKeepsInv(o: Oracles, s: System, wid: int, worker: Worker)
    requires Inv(o, s) && WorkerOk(s.db.publications, worker)
    ensures Inv(o, s.(workers := s.workers[wid := worker]))
  {}

  lemma ReadTestKeepsInv(o: Oracles, s: System, a: Action)
    requires Inv(o, s) && a.ReadTest?
    ensures Inv(o, WorkerStep(o, s, a))
  {
    match ReadSource(s.db, a.testId, a.quiz) {
      case Ok(source) => WorkerChangeKeepsInv(o, s, a.wid, Publishing(source));
      case Err(_) =>
    }
  }

  lemma ReadActiveKeepsInv(o: Oracles, s: System, a: Action)
    requires Inv(o, s) && a.ReadActive?
    ensures Inv(o, WorkerStep(o, s, a))
  {
    if ActiveExam(s.db).Some? {
      ActiveIsPublished(s.db);
      WorkerChangeKeepsInv(o, s, a.wid, Carrying(ActiveExam(s.db).value));
    }
  }

  lemma HistoryIgnoresPeople(db: Db, persons: map<int, Person>, carried: set<PassKey>)
    requires History(db, carried)
    ensures History(db.(persons := persons), carried)
  {}

  lemma PeopleChangeKeepsInv(o: Oracles, s: System, db: Db, carried: set<PassKey>)
    requires Inv(o, s) && Constraints(db) && History(db, carried)
    requires CarriedPublished(s.db.publications, carried)
    requires db.tests == s.db.tests && db.publications == s.db.publications
    ensures Inv(o, s.(db := db, carried := carried))
  {}

  ghost function AfterCarry(s: System, exam: Exam): System {
    s.(db := CarryPasses(s.db, exam),
       carried := s.carried + (LegacyPasses(s.db.persons, exam).Keys - s.db.passes.Keys))
  }

  ghost function AfterClear(s: System): System { s.(db := ClearLegacyPasses(s.db)) }

  lemma LegacyStepsAre(o: Oracles, s: System, wid: int)
    requires wid in s.workers
    ensures s.workers[wid].Carrying? ==>
      var next := AfterCarry(s, s.workers[wid].exam);
      WorkerStep(o, s, CarryOver(wid)) == next.(workers := next.workers[wid := Clearing])
    ensures s.workers[wid].Clearing? ==>
      var next := AfterClear(s);
      WorkerStep(o, s, ClearLegacy(wid)) == next.(workers := next.workers[wid := Finished])
  {}

  lemma AfterCarryInv(o: Oracles, s: System, exam: Exam)
    requires Inv(o, s) && Published(s.db.publications, exam)
    ensures Inv(o, AfterCarry(s, exam))
  {
    var next := AfterCarry(s, exam);
    forall k | k in next.carried ensures Published(s.db.publications, k.exam) {
      assert k in s.carried || k in LegacyPasses(s.db.persons, exam);
    }
    CarryKeepsConstraints(s.db, exam);
    CarryKeepsHistory(s.db, s.carried, exam);
    PeopleChangeKeepsInv(o, s, next.db, next.carried);
  }

  lemma AfterClearInv(o: Oracles, s: System)
    requires Inv(o, s)
    ensures Inv(o, AfterClear(s))
  {
    CarryKeepsConstraints(s.db, Exam("", ""));
    HistoryIgnoresPeople(s.db, WithoutLegacyPasses(s.db.persons), s.carried);
    PeopleChangeKeepsInv(o, s, ClearLegacyPasses(s.db), s.carried);
  }

  lemma CarryOverKeepsInv(o: Oracles, s: System, wid: int)
    requires Inv(o, s) && wid in s.workers && s.workers[wid].Carrying?
    ensures Inv(o, WorkerStep(o, s, CarryOver(wid)))
  {
    LegacyStepsAre(o, s, wid);
    assert WorkerOk(s.db.publications, s.workers[wid]);
    AfterCarryInv(o, s, s.workers[wid].exam);
    WorkerChangeKeepsInv(o, AfterCarry(s, s.workers[wid].exam), wid, Clearing);
  }

  lemma ClearLegacyKeepsInv(o: Oracles, s: System, wid: int)
    requires Inv(o, s) && wid in s.workers && s.workers[wid].Clearing?
    ensures Inv(o, WorkerStep(o, s, ClearLegacy(wid)))
  {
    LegacyStepsAre(o, s, wid);
    AfterClearInv(o, s);
    WorkerChangeKeepsInv(o, AfterClear(s), wid, Finished);
  }

  lemma WorkerStepKeepsInv(o: Oracles, s: System, a: Action)
    requires Inv(o, s)
    ensures Inv(o, WorkerStep(o, s, a))
  {
    if a.ReadTest? {
      ReadTestKeepsInv(o, s, a);
    } else if a.ReadActive? {
      ReadActiveKeepsInv(o, s, a);
    } else if CanCommit(s, a) {
      CommitKeepsInv(o, s, a.wid, a.row);
    } else if a.CarryOver? && a.wid in s.workers && s.workers[a.wid].Carrying? {
      CarryOverKeepsInv(o, s, a.wid);
    } else if a.ClearLegacy? && a.wid in s.workers && s.workers[a.wid].Clearing? {
      ClearLegacyKeepsInv(o, s, a.wid);
    } else {
      assert WorkerStep(o, s, a) == s;
    }
  }

  // ---------- every run ----------

  /** Every atomic step, whoever takes it, keeps the invariant. */
  lemma StepKeepsInv(o: Oracles, s: System, a: Action)
    requires Inv(o, s)
    ensures Inv(o, Next(o, s, a))
  {
    match a {
      case Administer(c) => AdminStepKeepsInv(o, s, c);
      case Connect(_, _, _) => SessionStepKeepsInv(o, s, a);
      case Resolve(_) => SessionStepKeepsInv(o, s, a);
      case Identify(_) => SessionStepKeepsInv(o, s, a);
      case Open(_, _) => SessionStepKeepsInv(o, s, a);
      case Input(_, _, _, _) => SessionStepKeepsInv(o, s, a);
      case _ => WorkerStepKeepsInv(o, s, a);
    }
  }

  lemma FreshIsInv(o: Oracles, s: System)
    requires Fresh(s)
    ensures Inv(o, s)
  {
    forall k ensures !Earned(s.db.attempts, k) {}
  }

  lemma {:induction false} RunKeepsInv(o: Oracles, s: System, actions: seq<Action>)
    requires Inv(o, s)
    ensures Inv(o, Run(o, s, actions))
    decreases |actions|
  {
    if actions != [] {
      StepKeepsInv(o, s, actions[0]);
      RunKeepsInv(o, Next(o, s, actions[0]), actions[1..]);
    }
  }
}
