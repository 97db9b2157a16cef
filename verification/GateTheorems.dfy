/** What the gate guarantees in every reachable state and over every run. */
module GateTheorems {
  import opened Wrappers
  import opened Identifiers
  import opened Quizzes
  import opened Tui
  import opened Schema
  import opened Transactions
  import opened Queries
  import opened Commands
  import opened Gate
  import opened GateInvariant
  import opened GateSafety

  /** A database that already holds exams with a valid history, and nobody at work on it. */
  ghost predicate Upgraded(o: Oracles, s: System) {
    Inv(o, s) && s.sessions == map[] && s.workers == map[]
  }

  ghost predicate Reachable(o: Oracles, start: System, actions: seq<Action>, s: System) {
    (Fresh(start) || Upgraded(o, start)) && s == Run(o, start, actions)
  }

  lemma ReachableIsInv(o: Oracles, start: System, actions: seq<Action>, s: System)
    requires Reachable(o, start, actions, s)
    ensures Inv(o, s)
  {
    if Fresh(start) {
      FreshIsInv(o, start);
    }
    RunKeepsInv(o, start, actions);
  }

  /** In every interleaving, each recorded attempt is the score of a complete set of legal
      answers to some preparation of exactly the quiz stored for its publication: the total is
      that quiz's size, and it passed exactly when it meets that quiz's threshold. */
  lemma AttemptsAreFaithful(o: Oracles, start: System, actions: seq<Action>, s: System, a: int)
    returns (i: int, prepared: PreparedQuiz)
    requires Reachable(o, start, actions, s)
    requires a in s.db.attempts && s.db.attempts[a].exam.Some?
    ensures i in s.db.publications && s.db.attempts[a].exam == Some(s.db.publications[i].exam)
    ensures forall j :: j in s.db.publications && s.db.attempts[a].exam == Some(s.db.publications[j].exam) ==> j == i
    ensures var quiz, attempt := s.db.publications[i].quiz, s.db.attempts[a];
      && Valid(quiz) && ScoredOn(quiz, prepared, attempt)
      && attempt.score == Marks(attempt.answers, prepared.questions)
      && attempt.total == (if quiz.questionLimit.Some? then quiz.questionLimit.value else |quiz.questions|)
      && (attempt.passed <==> attempt.score * 100 >= quiz.threshold * attempt.total)
  {
    ReachableIsInv(o, start, actions, s);
    assert Backed(s.db.publications, s.db.attempts[a]);
    i, prepared :| i in s.db.publications && s.db.attempts[a].exam == Some(s.db.publications[i].exam)
                   && ScoredOn(s.db.publications[i].quiz, prepared, s.db.attempts[a]);
    ScoreIsExact(s.db.publications[i].quiz, prepared, s.db.attempts[a].answers);
  }

  /** However many sessions run at once, nobody exceeds a publication's attempt limit, at most
      one attempt passes, and it is the last one. */
  lemma AttemptsAreBounded(o: Oracles, start: System, actions: seq<Action>, s: System, person: int, i: int)
    requires Reachable(o, start, actions, s) && i in s.db.publications
    ensures var sittings := Sittings(s.db.attempts, person, s.db.publications[i].exam);
      && |sittings| <= s.db.publications[i].quiz.maxAttempts
      && (forall a, b :: a in sittings && b in sittings && s.db.attempts[a].passed ==> b <= a)
      && (forall a, b :: a in sittings && b in sittings ==>
            s.db.attempts[a].passed && s.db.attempts[b].passed ==> a == b)
  {
    ReachableIsInv(o, start, actions, s);
  }

  /** A pass row exists exactly for a passing attempt or for a carried legacy pass, and never
      for both. */
  lemma PassesAreEarnedOrCarried(o: Oracles, start: System, actions: seq<Action>, s: System, k: PassKey)
    requires Reachable(o, start, actions, s)
    ensures k in s.db.passes <==> Earned(s.db.attempts, k) || k in s.carried
    ensures !(Earned(s.db.attempts, k) && k in s.carried)
  {
    ReachableIsInv(o, start, actions, s);
  }

  /** Foreign keys hold, and accounts, fingerprints and exams are unique, in every reachable
      state: the policy join has at most one row. */
  lemma PolicyIsUnambiguous(
    o: Oracles, start: System, actions: seq<Action>, s: System, account: string, fingerprint: string)
    requires Reachable(o, start, actions, s)
    ensures Constraints(s.db)
    ensures |PolicyRows(s.db, account, fingerprint)| <= 1
  {
    ReachableIsInv(o, start, actions, s);
    PolicyJoinIsUnique(s.db, account, fingerprint);
  }

  // ---------- publications ----------

  lemma CommitOnlyExtends(o: Oracles, s: System, wid: int, row: int)
    requires wid in s.workers && s.workers[wid].Publishing? && row !in s.db.publications
    ensures Extends(s.db.publications, CommitStep(o, s, wid, row).db.publications)
  {}

  lemma SessionsKeepPublications(s: System, a: Action)
    ensures SessionStep(s, a).db.publications == s.db.publications && SessionStep(s, a).db.keys == s.db.keys
  {
    if a.Input? && a.sid in s.sessions && s.sessions[a.sid].Sitting? {
      InputStepEffect(s, a.sid, a.event, a.row, a.now);
    }
  }

  lemma WorkersOnlyExtend(o: Oracles, s: System, a: Action)
    ensures Extends(s.db.publications, WorkerStep(o, s, a).db.publications)
  {
    if CanCommit(s, a) {
      CommitOnlyExtends(o, s, a.wid, a.row);
    } else {
      assert WorkerStep(o, s, a).db.publications == s.db.publications;
    }
  }

  lemma StepOnlyExtends(o: Oracles, s: System, a: Action)
    ensures Extends(s.db.publications, Next(o, s, a).db.publications)
  {
    if a.Administer? {
      CommandKeepsExams(o.digest, s.db, a.command);
    } else {
      SessionsKeepPublications(s, a);
      WorkersOnlyExtend(o, s, a);
    }
  }

  /** Publications are append-only: whatever runs, a stored quiz never changes or goes away. */
  lemma {:induction false} PublicationsAreAppendOnly(o: Oracles, s: System, actions: seq<Action>)
    ensures Extends(s.db.publications, Run(o, s, actions).db.publications)
    decreases |actions|
  {
    if actions != [] {
      StepOnlyExtends(o, s, actions[0]);
      PublicationsAreAppendOnly(o, Next(o, s, actions[0]), actions[1..]);
    }
  }

  ghost predicate FromSource(origins: map<int, Source>, source: Source) {
    exists i :: i in origins && origins[i] == source
  }

  /** Publishing is content-addressed: equal content reuses its row, changed content gets a row
      with a revision of its own, and content of a test deleted in the meantime is refused
      without any change. */
  lemma PublishingIsContentAddressed(o: Oracles, s: System, wid: int, row: int)
    requires Inv(o, s) && wid in s.workers && s.workers[wid].Publishing? && row !in s.db.publications
    requires NoCollision(o.hash, s.origins, s.workers[wid].source)
    ensures var source, s' := s.workers[wid].source, CommitStep(o, s, wid, row);
      && (FromSource(s.origins, source) ==>
            && s'.db.publications == s.db.publications
            && s'.db.active.Some? && s'.db.active.value in s.origins && s.origins[s'.db.active.value] == source)
      && (!FromSource(s.origins, source) && source.testId in s.db.tests ==>
            && s'.db.active == Some(row)
            && s'.db.publications
               == s.db.publications[row := Publication(Exam(source.testId, o.hash(source)), source.quiz)]
            && forall i :: i in s.db.publications ==> s.db.publications[i].exam != s'.db.publications[row].exam)
      && (!FromSource(s.origins, source) && source.testId !in s.db.tests ==> s'.db == s.db)
  {
    var source := s.workers[wid].source;
    var exam := Exam(source.testId, o.hash(source));
    forall i | i in s.db.publications ensures s.db.publications[i].exam == exam <==> s.origins[i] == source {}
    if FromSource(s.origins, source) {
      var i :| i in s.origins && s.origins[i] == source;
      assert i in s.db.publications && s.db.publications[i].exam == exam;
      assert HasExam(s.db, exam);
    } else {
      forall i | i in s.db.publications ensures s.db.publications[i].exam != exam {
        assert i in s.origins;
      }
    }
  }

  lemma InputStepEffect(s: System, sid: int, event: Event, row: int, now: int)
    requires sid in s.sessions && s.sessions[sid].Sitting?
    ensures var next := InputStep(s, sid, event, row, now);
      && next.db.active == s.db.active && next.db.publications == s.db.publications && next.db.keys == s.db.keys
      && (next.db.attempts != s.db.attempts ==>
            && NextRow(s.db.attempts, row) && next.sessions[sid].Closed?
            && next.db.attempts.Keys == s.db.attempts.Keys + {row})
      && (forall other :: other != sid && other in s.sessions ==>
            other in next.sessions && next.sessions[other] == s.sessions[other])
      && sid in next.sessions
  {
    var Sitting(identity, app) := s.sessions[sid];
    if InProgress(app) && Handle(app, event).Submitted? {
      RecordTouches(s.db, row, now, AttemptOf(identity, app.quiz, Handle(app, event).submission));
    }
  }

  lemma SessionStepEffect(s: System, a: Action)
    ensures !a.Input? ==> SessionStep(s, a).db == s.db
    ensures SessionStep(s, a).db.active == s.db.active
    ensures SessionStep(s, a).db.attempts != s.db.attempts ==>
      && a.Input? && a.sid in s.sessions && s.sessions[a.sid].Sitting? && NextRow(s.db.attempts, a.row)
      && SessionStep(s, a).sessions[a.sid].Closed?
      && SessionStep(s, a).db.attempts.Keys == s.db.attempts.Keys + {a.row}
    ensures forall sid :: IsClosed(s, sid) ==> IsClosed(SessionStep(s, a), sid)
  {
    if a.Input? && a.sid in s.sessions && s.sessions[a.sid].Sitting? {
      InputStepEffect(s, a.sid, a.event, a.row, a.now);
    }
  }

  lemma CommitEffect(o: Oracles, s: System, wid: int, row: int)
    requires wid in s.workers && s.workers[wid].Publishing? && row !in s.db.publications
    ensures var next := CommitStep(o, s, wid, row);
      && next.sessions == s.sessions && SamePeople(s.db, next.db)
      && (s.db.active.Some? ==> next.db.active.Some?)
  {}

  lemma WorkerStepEffect(o: Oracles, s: System, a: Action)
    ensures WorkerStep(o, s, a).sessions == s.sessions
    ensures WorkerStep(o, s, a).db.attempts == s.db.attempts
    ensures s.db.active.Some? ==> WorkerStep(o, s, a).db.active.Some?
    ensures a.ReadTest? || a.ReadActive? || a.CommitPublication? ==> SamePeople(s.db, WorkerStep(o, s, a).db)
  {
    if CanCommit(s, a) {
      CommitEffect(o, s, a.wid, a.row);
    }
  }

  lemma StepKeepsActive(o: Oracles, s: System, a: Action)
    requires s.db.active.Some?
    ensures Next(o, s, a).db.active.Some?
  {
    if a.Administer? {
      CommandKeepsExams(o.digest, s.db, a.command);
    } else {
      SessionStepEffect(s, a);
      WorkerStepEffect(o, s, a);
    }
  }

  lemma ActiveIsBacked(db: Db)
    requires Constraints(db) && db.active.Some?
    ensures db.active.value in db.publications
    ensures db.publications[db.active.value].exam.testId in db.tests
  {
    var i := db.active.value;
    assert i in db.publications && db.publications[i].exam.testId in db.tests;
  }

  /** Once set, the active pointer stays set, and it always names an existing publication of
      an existing test. */
  lemma {:induction false} ActivePointerIsSound(o: Oracles, s: System, actions: seq<Action>)
    requires Inv(o, s) && s.db.active.Some?
    ensures var db := Run(o, s, actions).db;
      && db.active.Some? && db.active.value in db.publications
      && db.publications[db.active.value].exam.testId in db.tests
    decreases |actions|
  {
    if actions != [] {
      StepKeepsInv(o, s, actions[0]);
      StepKeepsActive(o, s, actions[0]);
      ActivePointerIsSound(o, Next(o, s, actions[0]), actions[1..]);
    } else {
      ActiveIsBacked(s.db);
    }
  }

  lemma ActiveTestIsPublished(o: Oracles, s: System)
    requires Inv(o, s) && HexHash(o.hash) && s.db.active.Some?
    ensures PublishedTest(s.db).Ok? && PublishedTest(s.db).value.Some?
  {
    var i := s.db.active.value;
    assert i in s.db.publications && i in s.origins;
    assert s.db.publications[i].exam == Exam(s.origins[i].testId, o.hash(s.origins[i]));
  }

  lemma CommitActivates(o: Oracles, s: System, wid: int, row: int)
    requires wid in s.workers && s.workers[wid].Publishing? && row !in s.db.publications
    requires s.workers[wid].source.testId in s.db.tests
    ensures ActiveExam(CommitStep(o, s, wid, row).db)
            == Some(Exam(s.workers[wid].source.testId, o.hash(s.workers[wid].source)))
  {}

  /** Only a publishing transaction and an activation move the active pointer. */
  predicate MovesPointer(a: Action) {
    a.CommitPublication? || (a.Administer? && a.command.ActivatePublication?)
  }

  lemma OtherCommandsKeepPointer(o: Oracles, db: Db, c: Command)
    requires !c.ActivatePublication?
    ensures Execute(o.digest, db, c).active == db.active
  {
    match c {
      case NewTest(testId, test) => CreateTestTouches(db, testId, test);
      case ChangeTest(testId, inputId, test) => UpdateTestTouches(db, testId, inputId, test);
      case RemoveTest(testId) => RemoveTestTouches(db, testId);
      case _ => OtherCommandTouches(o.digest, db, c);
    }
  }

  lemma StepKeepsPointer(o: Oracles, s: System, a: Action)
    requires !MovesPointer(a)
    ensures Next(o, s, a).db.active == s.db.active
  {
    if a.Administer? {
      OtherCommandsKeepPointer(o, s.db, a.command);
    } else {
      SessionStepEffect(s, a);
      assert WorkerStep(o, s, a).db.active == s.db.active;
    }
  }

  lemma {:induction false} RunKeepsPointer(o: Oracles, s: System, actions: seq<Action>)
    requires forall a :: a in actions ==> !MovesPointer(a)
    ensures Run(o, s, actions).db.active == s.db.active
    decreases |actions|
  {
    if actions != [] {
      assert actions[0] in actions;
      StepKeepsPointer(o, s, actions[0]);
      RunKeepsPointer(o, Next(o, s, actions[0]), actions[1..]);
    }
  }

  /** Unless another publishing transaction or an activation comes in between, the active
      publication is the same one after any run. */
  lemma PublicationStaysActive(o: Oracles, s: System, actions: seq<Action>)
    requires s.db.active.Some? && s.db.active.value in s.db.publications
    requires forall a :: a in actions ==> !MovesPointer(a)
    ensures var db := Run(o, s, actions).db;
      && db.active == s.db.active && db.active.value in db.publications
      && db.publications[db.active.value] == s.db.publications[s.db.active.value]
  {
    RunKeepsPointer(o, s, actions);
    PublicationsAreAppendOnly(o, s, actions);
    var i := s.db.active.value;
    assert i in Run(o, s, actions).db.publications;
  }

  /** The second read with which `publish_test` and `activate_publication` answer. Whatever runs
      before it, it finds a published test; unless the pointer is moved again, the active one. */
  lemma SecondRead(o: Oracles, s: System, actions: seq<Action>)
    requires Inv(o, s) && HexHash(o.hash) && s.db.active.Some?
    ensures s.db.active.value in s.db.publications
    ensures var answer := PublishedTest(Run(o, s, actions).db);
      && answer.Ok? && answer.value.Some?
      && ((forall a :: a in actions ==> !MovesPointer(a)) ==>
            answer.value.value == s.db.publications[s.db.active.value])
  {
    ActiveIsBacked(s.db);
    ActivePointerIsSound(o, s, actions);
    RunKeepsInv(o, s, actions);
    ActiveTestIsPublished(o, Run(o, s, actions));
    if forall a :: a in actions ==> !MovesPointer(a) {
      PublicationStaysActive(o, s, actions);
    }
  }

  /** `publish_test` answers with a second read of the active publication. Whatever sessions,
      edits, resets and carry-overs run before that read, it finds the exam just published, unless
      a publishing transaction or an activation is among them; and it always finds a published
      test. */
  lemma AnswerOfPublishing(o: Oracles, s: System, wid: int, row: int, actions: seq<Action>)
    requires Inv(o, s) && HexHash(o.hash) && wid in s.workers && s.workers[wid].Publishing?
    requires row !in s.db.publications && s.workers[wid].source.testId in s.db.tests
    ensures var answer := PublishedTest(Run(o, CommitStep(o, s, wid, row), actions).db);
      && answer.Ok? && answer.value.Some?
      && ((forall a :: a in actions ==> !MovesPointer(a)) ==>
            answer.value.value.exam == Exam(s.workers[wid].source.testId, o.hash(s.workers[wid].source)))
  {
    CommitKeepsInv(o, s, wid, row);
    CommitActivates(o, s, wid, row);
    SecondRead(o, CommitStep(o, s, wid, row), actions);
  }

  lemma ActivationMovesPointer(o: Oracles, s: System, testId: string, publication: int)
    requires Activate(s.db, testId, publication).result.Ok?
    ensures Next(o, s, Administer(ActivatePublication(testId, publication))).db
            == s.db.(active := Some(publication))
    ensures publication in s.db.publications
  {}

  /** The same for `activate_publication`. */
  lemma AnswerOfActivating(o: Oracles, s: System, testId: string, publication: int, actions: seq<Action>)
    requires Inv(o, s) && HexHash(o.hash) && Activate(s.db, testId, publication).result.Ok?
    ensures var next := Next(o, s, Administer(ActivatePublication(testId, publication)));
      var answer := PublishedTest(Run(o, next, actions).db);
      && answer.Ok? && answer.value.Some?
      && ((forall a :: a in actions ==> !MovesPointer(a)) ==> answer.value.value == s.db.publications[publication])
  {
    StepKeepsInv(o, s, Administer(ActivatePublication(testId, publication)));
    ActivationMovesPointer(o, s, testId, publication);
    SecondRead(o, Next(o, s, Administer(ActivatePublication(testId, publication))), actions);
  }

  lemma PassNeedsPublication(o: Oracles, s: System, k: PassKey)
    requires Inv(o, s) && k in s.db.passes
    ensures HasExam(s.db, k.exam)
  {
    if k in s.carried {
      assert Published(s.db.publications, k.exam);
    } else {
      var a :| a in s.db.attempts && s.db.attempts[a].passed && s.db.attempts[a].person == k.person
               && s.db.attempts[a].exam == Some(k.exam);
      BackedHasExam(s.db, s.db.attempts[a]);
    }
  }

  lemma UnpublishedIsUnused(o: Oracles, s: System, testId: string)
    requires Inv(o, s) && !IsPublished(s.db, testId)
    ensures forall a :: a in s.db.attempts && s.db.attempts[a].exam.Some? ==>
      s.db.attempts[a].exam.value.testId != testId
    ensures forall k :: k in s.db.passes ==> k.exam.testId != testId
  {
    forall a | a in s.db.attempts && s.db.attempts[a].exam.Some?
      ensures s.db.attempts[a].exam.value.testId != testId
    {
      BackedHasExam(s.db, s.db.attempts[a]);
    }
    forall k | k in s.db.passes ensures k.exam.testId != testId {
      PassNeedsPublication(o, s, k);
    }
  }

  /** Deleting a test never erases exam history: only tests nobody could sit are deleted. */
  lemma DeletingTestErasesNothing(o: Oracles, s: System, testId: string)
    requires Inv(o, s)
    ensures var next := DeleteTest(s.db, testId).db; next == s.db.(tests := next.tests)
  {
    if !IsPublished(s.db, testId) {
      UnpublishedIsUnused(o, s, testId);
      DeleteUnusedTest(s.db, testId);
    }
  }

  /** Deleting a test that was just created restores the database. */
  lemma DeletingUndoesCreatingTest(o: Oracles, s: System, testId: string, test: Test)
    requires Inv(o, s) && CreateTest(s.db, testId, test).result.Ok?
    ensures DeleteTest(CreateTest(s.db, testId, test).db, testId) == Done(s.db, ())
  {
    var created := CreateTest(s.db, testId, test).db;
    CreateTestTouches(s.db, testId, test);
    CreatedTest(s.db, testId, test);
    UnpublishedIsUnused(o, s, testId);
    DeletedTestIs(s.db, created, testId);
  }

  lemma DeletedTestIs(db: Db, created: Db, testId: string)
    requires created == db.(tests := created.tests) && References(db) && testId !in db.tests
    requires testId in created.tests && ValidBankId(testId) && created.tests - {testId} == db.tests
    requires forall a :: a in db.attempts && db.attempts[a].exam.Some? ==> db.attempts[a].exam.value.testId != testId
    requires forall k :: k in db.passes ==> k.exam.testId != testId
    ensures DeleteTest(created, testId) == Done(db, ())
  {
    assert !IsPublished(created, testId);
    DeleteUnusedTest(created, testId);
  }

  /** Publishing changed content requires a new pass: nobody holds a pass or an attempt for the
      new revision. */
  lemma NewRevisionNeedsNewPass(o: Oracles, s: System, wid: int, row: int, person: int)
    requires Inv(o, s) && wid in s.workers && s.workers[wid].Publishing? && row !in s.db.publications
    requires NoCollision(o.hash, s.origins, s.workers[wid].source)
    requires !FromSource(s.origins, s.workers[wid].source) && s.workers[wid].source.testId in s.db.tests
    ensures var db := CommitStep(o, s, wid, row).db;
      && ActiveExam(db) == Some(Exam(s.workers[wid].source.testId, o.hash(s.workers[wid].source)))
      && PassKey(person, ActiveExam(db).value) !in db.passes
      && Sittings(db.attempts, person, ActiveExam(db).value) == {}
  {
    PublishingIsContentAddressed(o, s, wid, row);
    CommitEffect(o, s, wid, row);
    var exam := Exam(s.workers[wid].source.testId, o.hash(s.workers[wid].source));
    assert !HasExam(s.db, exam) by {
      assert CommitStep(o, s, wid, row).db.publications[row].exam == exam;
    }
    if PassKey(person, exam) in s.db.passes {
      PassNeedsPublication(o, s, PassKey(person, exam));
    }
    if Sittings(s.db.attempts, person, exam) != {} {
      SittingsNeedPublication(s.db, person, exam);
    }
  }

  // ---------- verdicts ----------

  /** Steps that only edit, publish, activate or delete tests, or only read. */
  predicate IsPublishing(a: Action) {
    || a.Connect? || a.Resolve? || a.Identify? || a.Open? || a.ReadTest? || a.CommitPublication? || a.ReadActive?
    || (a.Administer? && (IsTestCommand(a.command) || a.command.RemoveTest?))
  }

  ghost predicate SamePeople(db: Db, db': Db) {
    db'.persons == db.persons && db'.keys == db.keys && db'.attempts == db.attempts && db'.passes == db.passes
  }

  lemma PublishingStepKeepsPeople(o: Oracles, s: System, a: Action)
    requires Inv(o, s) && IsPublishing(a)
    ensures SamePeople(s.db, Next(o, s, a).db)
  {
    if a.Administer? {
      PublishingCommandKeepsPeople(o, s, a.command);
    } else {
      SessionStepEffect(s, a);
      WorkerStepEffect(o, s, a);
    }
  }

  lemma PublishingCommandKeepsPeople(o: Oracles, s: System, c: Command)
    requires Inv(o, s) && IsPublishing(Administer(c))
    ensures SamePeople(s.db, AdminStep(o, s, c).db)
  {
    if c.RemoveTest? {
      DeletingTestErasesNothing(o, s, c.testId);
    } else {
      TestCommandTouches(o.digest, s.db, c);
    }
  }

  lemma {:induction false} PublishingKeepsPeople(o: Oracles, s: System, actions: seq<Action>)
    requires Inv(o, s) && forall a :: a in actions ==> IsPublishing(a)
    ensures SamePeople(s.db, Run(o, s, actions).db)
    decreases |actions|
  {
    if actions != [] {
      assert actions[0] in actions;
      StepKeepsInv(o, s, actions[0]);
      PublishingStepKeepsPeople(o, s, actions[0]);
      PublishingKeepsPeople(o, Next(o, s, actions[0]), actions[1..]);
    }
  }

  // ---------- what other exams leave alone ----------

  /** The step does not concern exam `e`: it only publishes, or it is a key press in a sitting of
      another exam, a reset or a carry-over for another exam, or the end of a carry-over. */
  predicate LeavesAlone(s: System, a: Action, e: Exam) {
    || IsPublishing(a)
    || a.ClearLegacy?
    || (a.Input? && (a.sid in s.sessions && s.sessions[a.sid].Sitting? ==> s.sessions[a.sid].identity.exam != e))
    || (a.Administer? && a.command.Reset? && ActiveExam(s.db) != Some(e))
    || (a.CarryOver? && (a.wid in s.workers && s.workers[a.wid].Carrying? ==> s.workers[a.wid].exam != e))
  }

  ghost predicate RunLeavesAlone(o: Oracles, s: System, actions: seq<Action>, e: Exam)
    decreases |actions|
  {
    actions != [] ==> LeavesAlone(s, actions[0], e) && RunLeavesAlone(o, Next(o, s, actions[0]), actions[1..], e)
  }

  /** Equal in all that decides access to exam `e`: keys, people up to legacy passes, and the
      attempts and passes at `e`. */
  ghost predicate SameAt(db: Db, db': Db, e: Exam) {
    && db'.keys == db.keys
    && WithoutLegacyPasses(db'.persons) == WithoutLegacyPasses(db.persons)
    && (forall p :: Sittings(db'.attempts, p, e) == Sittings(db.attempts, p, e))
    && (forall p :: PassKey(p, e) in db'.passes <==> PassKey(p, e) in db.passes)
  }

  lemma RecordingElsewhere(db: Db, row: int, now: int, input: AttemptInput, e: Exam)
    requires NextRow(db.attempts, row) && input.exam != e
    ensures SameAt(db, RecordAttempt(db, row, now, input).db, e)
  {
    var next := RecordAttempt(db, row, now, input).db;
    RecordTouches(db, row, now, input);
    forall p ensures Sittings(next.attempts, p, e) == Sittings(db.attempts, p, e) {
      SittingsAfterRecord(db, row, NewAttempt(input), p, e);
    }
  }

  lemma ResettingElsewhere(db: Db, person: int, e: Exam)
    requires ActiveExam(db) != Some(e)
    ensures SameAt(db, ResetExam(db, person).db, e)
  {
    var next := ResetExam(db, person).db;
    forall p, a ensures a in Sittings(next.attempts, p, e) <==> a in Sittings(db.attempts, p, e) {
      assert a in db.attempts && db.attempts[a].exam == Some(e) ==> a in next.attempts;
    }
    assert WithoutLegacyPasses(next.persons) == WithoutLegacyPasses(db.persons);
  }

  lemma CarryingElsewhere(db: Db, exam: Exam, e: Exam)
    requires exam != e
    ensures SameAt(db, CarryPasses(db, exam), e)
  {}

  lemma ClearingKeepsAccess(db: Db, e: Exam)
    ensures SameAt(db, ClearLegacyPasses(db), e)
  {
    assert WithoutLegacyPasses(WithoutLegacyPasses(db.persons)) == WithoutLegacyPasses(db.persons);
  }

  lemma InputElsewhere(s: System, a: Action, e: Exam)
    requires a.Input? && LeavesAlone(s, a, e)
    ensures SameAt(s.db, SessionStep(s, a).db, e)
  {
    if a.sid in s.sessions && s.sessions[a.sid].Sitting? && InProgress(s.sessions[a.sid].app) {
      var Sitting(identity, app) := s.sessions[a.sid];
      var outcome := Handle(app, a.event);
      if outcome.Submitted? && NextRow(s.db.attempts, a.row) {
        RecordingElsewhere(s.db, a.row, a.now, AttemptOf(identity, app.quiz, outcome.submission), e);
      }
    }
  }

  lemma StepElsewhere(o: Oracles, s: System, a: Action, e: Exam)
    requires Inv(o, s) && LeavesAlone(s, a, e)
    ensures SameAt(s.db, Next(o, s, a).db, e)
  {
    if IsPublishing(a) {
      PublishingStepKeepsPeople(o, s, a);
    } else if a.Input? {
      InputElsewhere(s, a, e);
    } else if a.Administer? {
      ResettingElsewhere(s.db, a.command.person, e);
    } else if a.CarryOver? {
      CarryOverElsewhere(o, s, a, e);
    } else {
      ClearingKeepsAccess(s.db, e);
      ClearStepIs(o, s, a);
    }
  }

  lemma CarryOverElsewhere(o: Oracles, s: System, a: Action, e: Exam)
    requires a.CarryOver? && LeavesAlone(s, a, e)
    ensures SameAt(s.db, WorkerStep(o, s, a).db, e)
  {
    if a.wid in s.workers && s.workers[a.wid].Carrying? {
      CarryingElsewhere(s.db, s.workers[a.wid].exam, e);
    }
  }

  lemma ClearStepIs(o: Oracles, s: System, a: Action)
    requires a.ClearLegacy?
    ensures WorkerStep(o, s, a).db == s.db || WorkerStep(o, s, a).db == ClearLegacyPasses(s.db)
  {}

  /** Whatever happens at other exams, access to `e` stays as it was. */
  lemma {:induction false} OtherExamsLeaveAlone(o: Oracles, s: System, actions: seq<Action>, e: Exam)
    requires Inv(o, s) && RunLeavesAlone(o, s, actions, e)
    ensures SameAt(s.db, Run(o, s, actions).db, e)
    decreases |actions|
  {
    if actions != [] {
      StepKeepsInv(o, s, actions[0]);
      StepElsewhere(o, s, actions[0], e);
      OtherExamsLeaveAlone(o, Next(o, s, actions[0]), actions[1..], e);
    }
  }

  lemma SamePersonUpToPass(persons: map<int, Person>, persons': map<int, Person>, p: int)
    requires WithoutLegacyPasses(persons') == WithoutLegacyPasses(persons)
    ensures p in persons' <==> p in persons
    ensures p in persons ==>
      && persons'[p].enabled == persons[p].enabled && persons'[p].account == persons[p].account
      && persons'[p].name == persons[p].name
  {
    assert p in WithoutLegacyPasses(persons') <==> p in WithoutLegacyPasses(persons);
    if p in persons {
      assert WithoutLegacyPasses(persons')[p] == WithoutLegacyPasses(persons)[p];
    }
  }

  lemma SameAtSameVerdict(db: Db, db': Db, account: string, fingerprint: string)
    requires ActiveExam(db).Some? && ActiveExam(db') == ActiveExam(db)
    requires SameAt(db, db', ActiveExam(db).value)
    ensures ResolvePolicy(db', account, fingerprint) == ResolvePolicy(db, account, fingerprint)
    ensures LoadIdentity(db', account, fingerprint) == LoadIdentity(db, account, fingerprint)
  {
    forall p ensures p in db'.persons <==> p in db.persons
      ensures p in db.persons ==>
        && db'.persons[p].enabled == db.persons[p].enabled && db'.persons[p].account == db.persons[p].account
        && db'.persons[p].name == db.persons[p].name
    {
      SamePersonUpToPass(db.persons, db'.persons, p);
    }
    assert PolicyRows(db', account, fingerprint) == PolicyRows(db, account, fingerprint);
  }

  /** Publish another exam, let people sit it, reset and carry over there: activating the earlier
      publication again restores exactly its old verdicts and attempt counts, for every account
      and key. */
  lemma ReactivationRestoresVerdicts(
    o: Oracles, s: System, actions: seq<Action>, account: string, fingerprint: string)
    requires Inv(o, s) && ActiveExam(s.db).Some? && RunLeavesAlone(o, s, actions, ActiveExam(s.db).value)
    ensures
      var i, later := s.db.active.value, Run(o, s, actions).db;
      var restored := Activate(later, s.db.publications[i].exam.testId, i);
      && restored.result == Ok(i)
      && ResolvePolicy(restored.db, account, fingerprint) == ResolvePolicy(s.db, account, fingerprint)
      && LoadIdentity(restored.db, account, fingerprint) == LoadIdentity(s.db, account, fingerprint)
  {
    var i, later := s.db.active.value, Run(o, s, actions).db;
    OtherExamsLeaveAlone(o, s, actions, ActiveExam(s.db).value);
    PublicationsAreAppendOnly(o, s, actions);
    SameAtSameVerdict(s.db, Activate(later, s.db.publications[i].exam.testId, i).db, account, fingerprint);
  }

  /** What resolving an identity says about the database. */
  lemma IdentityMeans(db: Db, account: string, fingerprint: string, identity: Identity)
    requires LoadIdentity(db, account, fingerprint) == Ok(Some(identity))
    ensures ActiveExam(db) == Some(identity.exam)
    ensures ValidBankId(identity.exam.testId) && ValidRevision(identity.exam.revision)
    ensures identity.person in db.persons && db.persons[identity.person].enabled
    ensures identity.passed <==> PassKey(identity.person, identity.exam) in db.passes
    ensures identity.attemptCount == |Sittings(db.attempts, identity.person, identity.exam)|
  {}

  lemma StoredQuizIsValid(o: Oracles, s: System, i: int)
    requires Inv(o, s) && i in s.db.publications
    ensures Valid(s.db.publications[i].quiz)
  {
    assert PublicationsOk(o, s.db.publications, s.origins);
  }

  /** A complete answer list to a preparation scores something that passes the input checks. */
  lemma SubmissionIsWellFormed(quiz: Quiz, prepared: PreparedQuiz, answers: seq<nat>)
    requires Valid(quiz) && PreparedFrom(quiz, prepared) && |answers| == |prepared.questions|
    ensures ScoreAnswers(prepared, answers).Scored?
    ensures var score := ScoreAnswers(prepared, answers).score;
      score.total >= 1 && score.correct <= score.total && prepared.maxAttempts == quiz.maxAttempts >= 1
  {
    ScoreIsExact(quiz, prepared, answers);
    PreparedShape(quiz, prepared);
  }

  /** The checks before an exam and those that record it agree: on an unchanged database the
      exam opens exactly if a complete attempt would be accepted, as the next one. */
  lemma OpeningAgreesWithRecording(
    o: Oracles, s: System, account: string, fingerprint: string, identity: Identity, prepared: PreparedQuiz,
    answers: seq<nat>, row: int, now: int)
    requires Inv(o, s) && LoadIdentity(s.db, account, fingerprint) == Ok(Some(identity))
    requires s.db.active.Some? && s.db.active.value in s.db.publications
    requires PreparedFrom(s.db.publications[s.db.active.value].quiz, prepared)
    requires |answers| == |prepared.questions|
    ensures ScoreAnswers(prepared, answers).Scored?
    ensures var input := AttemptOf(identity, prepared, Submission(answers, ScoreAnswers(prepared, answers).score));
      RecordAttempt(s.db, row, now, input).result
      == if OpenExam(s.db, identity, prepared).Sitting? then Ok(identity.attemptCount + 1)
         else if identity.passed then Err(AlreadyPassed) else Err(AttemptsExhausted)
  {
    StoredQuizIsValid(o, s, s.db.active.value);
    IdentityMeans(s.db, account, fingerprint, identity);
    OpeningMatches(s.db, identity, prepared, answers, row, now);
  }

  lemma OpeningMatches(
    db: Db, identity: Identity, prepared: PreparedQuiz, answers: seq<nat>, row: int, now: int)
    requires ActiveExam(db) == Some(identity.exam)
    requires ValidBankId(identity.exam.testId) && ValidRevision(identity.exam.revision)
    requires identity.person in db.persons && db.persons[identity.person].enabled
    requires identity.passed <==> PassKey(identity.person, identity.exam) in db.passes
    requires identity.attemptCount == |Sittings(db.attempts, identity.person, identity.exam)|
    requires Valid(db.publications[db.active.value].quiz)
    requires PreparedFrom(db.publications[db.active.value].quiz, prepared) && |answers| == |prepared.questions|
    ensures ScoreAnswers(prepared, answers).Scored?
    ensures var input := AttemptOf(identity, prepared, Submission(answers, ScoreAnswers(prepared, answers).score));
      RecordAttempt(db, row, now, input).result
      == if OpenExam(db, identity, prepared).Sitting? then Ok(identity.attemptCount + 1)
         else if identity.passed then Err(AlreadyPassed) else Err(AttemptsExhausted)
  {
    SubmissionIsWellFormed(db.publications[db.active.value].quiz, prepared, answers);
  }

  // ---------- one attempt per session ----------

  /** The step adds an attempt on behalf of session `sid`. */
  ghost predicate Records(o: Oracles, s: System, a: Action, sid: int) {
    a.Input? && a.sid == sid && exists row :: row in Next(o, s, a).db.attempts && row !in s.db.attempts
  }

  ghost predicate IsClosed(s: System, sid: int) { sid in s.sessions && s.sessions[sid].Closed? }

  /** Only the input that ends an exam adds an attempt, it adds exactly one, and it closes its
      session; a closed session stays closed. */
  lemma RecordingClosesSession(o: Oracles, s: System, a: Action, sid: int)
    ensures Records(o, s, a, sid) ==>
      && !IsClosed(s, sid) && IsClosed(Next(o, s, a), sid)
      && Next(o, s, a).db.attempts.Keys == s.db.attempts.Keys + {a.row}
    ensures IsClosed(s, sid) ==> IsClosed(Next(o, s, a), sid)
    ensures !a.Input? ==> forall row :: row in Next(o, s, a).db.attempts ==> row in s.db.attempts
  {
    if a.Administer? {
      CommandRemovesWhole(o.digest, s.db, a.command);
    } else {
      SessionStepEffect(s, a);
      WorkerStepEffect(o, s, a);
    }
  }

  ghost function AttemptsBy(o: Oracles, s: System, actions: seq<Action>, sid: int): nat
    decreases |actions|
  {
    if actions == [] then 0
    else
      (if Records(o, s, actions[0], sid) then 1 else 0) + AttemptsBy(o, Next(o, s, actions[0]), actions[1..], sid)
  }

  /** Over any run a session records at most one attempt, and none after it has closed. */
  lemma {:induction false} SessionRecordsAtMostOnce(o: Oracles, s: System, actions: seq<Action>, sid: int)
    ensures AttemptsBy(o, s, actions, sid) <= 1
    ensures IsClosed(s, sid) ==> AttemptsBy(o, s, actions, sid) == 0
    decreases |actions|
  {
    if actions != [] {
      RecordingClosesSession(o, s, actions[0], sid);
      SessionRecordsAtMostOnce(o, Next(o, s, actions[0]), actions[1..], sid);
    }
  }
}
