/** The inductive invariant of the gate protocol. */
module GateInvariant {
  import opened Wrappers
  import opened Sets
  import opened Identifiers
  import opened Quizzes
  import opened Tui
  import opened Schema
  import opened Transactions
  import opened Queries
  import opened Gate

  /** Each publication stores the valid quiz of its source, under the source's hash. */
  ghost predicate PublicationsOk(o: Oracles, publications: map<int, Publication>, origins: map<int, Source>) {
    && origins.Keys == publications.Keys
    && forall i :: i in publications ==>
         && Valid(publications[i].quiz)
         && ValidBankId(publications[i].exam.testId)
         && publications[i].exam == Exam(origins[i].testId, o.hash(origins[i]))
         && publications[i].quiz == origins[i].quiz
  }

  /** The attempt is the score of complete, legal answers to some preparation of the quiz. */
  ghost predicate ScoredOn(quiz: Quiz, prepared: PreparedQuiz, attempt: Attempt) {
    && PreparedFrom(quiz, prepared)
    && |attempt.answers| == |prepared.questions| && Legal(prepared, attempt.answers)
    && ScoreAnswers(prepared, attempt.answers).Scored?
    && var score := ScoreAnswers(prepared, attempt.answers).score;
    && attempt.score == score.correct && attempt.total == score.total && attempt.passed == score.passed
  }

  ghost predicate Backed(publications: map<int, Publication>, attempt: Attempt) {
    exists i, prepared :: i in publications && attempt.exam == Some(publications[i].exam)
                          && ScoredOn(publications[i].quiz, prepared, attempt)
  }

  ghost predicate AttemptsBacked(db: Db) {
    forall a :: a in db.attempts && db.attempts[a].exam.Some? ==> Backed(db.publications, db.attempts[a])
  }

  /** No attempt of a person at an exam comes after a passing one. */
  ghost predicate PassingIsLast(attempts: map<int, Attempt>) {
    forall a, b :: a in attempts && b in attempts && a < b
      && attempts[a].exam.Some? && attempts[a].exam == attempts[b].exam && attempts[a].person == attempts[b].person
      ==> !attempts[a].passed
  }

  ghost predicate WithinLimits(db: Db) {
    forall p, i :: i in db.publications ==>
      |Sittings(db.attempts, p, db.publications[i].exam)| <= db.publications[i].quiz.maxAttempts
  }

  /** A passing attempt behind the pass row. */
  ghost predicate Earned(attempts: map<int, Attempt>, k: PassKey) {
    exists a :: a in attempts && attempts[a].passed && attempts[a].person == k.person
                && attempts[a].exam == Some(k.exam)
  }

  /** Pass rows are exactly the earned ones and the carried ones, never both. */
  ghost predicate PassesOk(db: Db, carried: set<PassKey>) {
    && carried <= db.passes.Keys
    && (forall k :: Earned(db.attempts, k) ==> k in db.passes && k !in carried)
    && (forall k :: k in db.passes ==> k in carried || Earned(db.attempts, k))
  }

  ghost predicate History(db: Db, carried: set<PassKey>) {
    && AttemptsBacked(db) && PassingIsLast(db.attempts) && WithinLimits(db) && PassesOk(db, carried)
  }

  ghost predicate Published(publications: map<int, Publication>, exam: Exam) {
    exists i :: i in publications && publications[i].exam == exam
  }

  /** An exam in progress runs on a preparation of the quiz its identity names. */
  ghost predicate SittingOk(publications: map<int, Publication>, identity: Identity, app: App) {
    && InProgress(app)
    && exists i :: i in publications && publications[i].exam == identity.exam
                   && PreparedFrom(publications[i].quiz, app.quiz)
  }

  ghost predicate SessionOk(publications: map<int, Publication>, session: Session) {
    match session
    case Connecting(_, _) => true
    case Resolved(policy) => Published(publications, policy.exam)
    case Identified(identity) => Published(publications, identity.exam)
    case Sitting(identity, app) => SittingOk(publications, identity, app)
    case Closed => true
  }

  ghost predicate SessionsOk(publications: map<int, Publication>, sessions: map<int, Session>) {
    forall sid :: sid in sessions ==> SessionOk(publications, sessions[sid])
  }

  ghost predicate WorkerOk(publications: map<int, Publication>, worker: Worker) {
    match worker
    case Publishing(source) => Valid(source.quiz) && ValidBankId(source.testId)
    case Carrying(exam) => Published(publications, exam)
    case Clearing => true
    case Finished => true
  }

  ghost predicate WorkersOk(publications: map<int, Publication>, workers: map<int, Worker>) {
    forall wid :: wid in workers ==> WorkerOk(publications, workers[wid])
  }

  /** A carry-over only ever names a published exam. */
  ghost predicate CarriedPublished(publications: map<int, Publication>, carried: set<PassKey>) {
    forall k :: k in carried ==> Published(publications, k.exam)
  }

  ghost predicate Inv(o: Oracles, s: System) {
    && Constraints(s.db) && TestsOk(s.db)
    && PublicationsOk(o, s.db.publications, s.origins)
    && History(s.db, s.carried)
    && CarriedPublished(s.db.publications, s.carried)
    && SessionsOk(s.db.publications, s.sessions)
    && WorkersOk(s.db.publications, s.workers)
  }

  // ---------- publications only grow ----------

  ghost predicate Extends(publications: map<int, Publication>, later: map<int, Publication>) {
    forall i :: i in publications ==> i in later && later[i] == publications[i]
  }

  lemma SessionStaysOk(publications: map<int, Publication>, later: map<int, Publication>, session: Session)
    requires Extends(publications, later) && SessionOk(publications, session)
    ensures SessionOk(later, session)
  {
    match session {
      case Resolved(policy) =>
        var i :| i in publications && publications[i].exam == policy.exam;
        assert i in later && later[i].exam == policy.exam;
      case Identified(identity) =>
        var i :| i in publications && publications[i].exam == identity.exam;
        assert i in later && later[i].exam == identity.exam;
      case Sitting(identity, app) =>
        var i :| i in publications && publications[i].exam == identity.exam
                 && PreparedFrom(publications[i].quiz, app.quiz);
        assert i in later && later[i].exam == identity.exam && PreparedFrom(later[i].quiz, app.quiz);
      case _ =>
    }
  }

  lemma MemoryStaysOk(
    publications: map<int, Publication>, later: map<int, Publication>,
    sessions: map<int, Session>, workers: map<int, Worker>)
    requires Extends(publications, later)
    requires SessionsOk(publications, sessions) && WorkersOk(publications, workers)
    ensures SessionsOk(later, sessions) && WorkersOk(later, workers)
    ensures forall carried :: CarriedPublished(publications, carried) ==> CarriedPublished(later, carried)
  {
    forall exam | Published(publications, exam) ensures Published(later, exam) {
      var i :| i in publications && publications[i].exam == exam;
      assert i in later && later[i].exam == exam;
    }
    forall sid | sid in sessions ensures SessionOk(later, sessions[sid]) {
      SessionStaysOk(publications, later, sessions[sid]);
    }
    forall wid | wid in workers ensures WorkerOk(later, workers[wid]) {
      if workers[wid].Carrying? {
        var i :| i in publications && publications[i].exam == workers[wid].exam;
        assert i in later && later[i].exam == workers[wid].exam;
      }
    }
  }

  lemma BackingStays(publications: map<int, Publication>, later: map<int, Publication>, attempt: Attempt)
    requires Extends(publications, later) && Backed(publications, attempt)
    ensures Backed(later, attempt)
  {
    var i, prepared :| i in publications && attempt.exam == Some(publications[i].exam)
                       && ScoredOn(publications[i].quiz, prepared, attempt);
    assert i in later && later[i] == publications[i];
  }

  // ---------- deletions keep the history ----------

  /** Attempts and passes are only removed, and per person and exam either the pass and all
      attempts behind it stay or none does. */
  ghost predicate RemovesWholeSittings(db: Db, db': Db) {
    && (forall a :: a in db'.attempts ==> a in db.attempts && db'.attempts[a] == db.attempts[a])
    && (forall k :: k in db'.passes ==> k in db.passes)
    && (forall k :: k in db.passes && k !in db'.passes ==> !Earned(db'.attempts, k))
    && (forall k :: k in db'.passes && Earned(db.attempts, k) ==> Earned(db'.attempts, k))
  }

  lemma FewerSittings(attempts: map<int, Attempt>, attempts': map<int, Attempt>, person: int, exam: Exam)
    requires forall a :: a in attempts' ==> a in attempts && attempts'[a] == attempts[a]
    ensures |Sittings(attempts', person, exam)| <= |Sittings(attempts, person, exam)|
  {
    var small, large := Sittings(attempts', person, exam), Sittings(attempts, person, exam);
    assert forall a :: a in small ==> a in large;
    SubsetSize(small, large);
  }

  lemma EarnedStays(attempts: map<int, Attempt>, attempts': map<int, Attempt>, k: PassKey)
    requires forall a :: a in attempts' ==> a in attempts && attempts'[a] == attempts[a]
    ensures Earned(attempts', k) ==> Earned(attempts, k)
  {
    if Earned(attempts', k) {
      var a :| a in attempts' && attempts'[a].passed && attempts'[a].person == k.person
               && attempts'[a].exam == Some(k.exam);
      assert a in attempts && attempts[a].passed;
    }
  }

  lemma RemovalKeepsPasses(db: Db, db': Db, carried: set<PassKey>)
    requires PassesOk(db, carried) && RemovesWholeSittings(db, db')
    ensures PassesOk(db', carried * db'.passes.Keys)
  {
    forall k | Earned(db'.attempts, k) ensures k in db'.passes && k !in carried {
      EarnedStays(db.attempts, db'.attempts, k);
    }
  }

  lemma RemovalKeepsHistory(db: Db, db': Db, carried: set<PassKey>)
    requires History(db, carried) && RemovesWholeSittings(db, db')
    requires db'.publications == db.publications
    ensures History(db', carried * db'.passes.Keys)
  {
    RemovalKeepsPasses(db, db', carried);
    forall p, i | i in db'.publications
      ensures |Sittings(db'.attempts, p, db'.publications[i].exam)| <= db'.publications[i].quiz.maxAttempts
    {
      FewerSittings(db.attempts, db'.attempts, p, db'.publications[i].exam);
    }
  }

  lemma DeletePersonRemovesWhole(db: Db, id: int)
    ensures RemovesWholeSittings(db, DeletePerson(db, id).db)
  {
    var db' := DeletePerson(db, id).db;
    forall k | k in db'.passes && Earned(db.attempts, k) ensures Earned(db'.attempts, k) {
      var a :| a in db.attempts && db.attempts[a].passed && db.attempts[a].person == k.person
               && db.attempts[a].exam == Some(k.exam);
      assert a in db'.attempts;
    }
  }

  lemma DeleteTestRemovesWhole(db: Db, id: string)
    ensures RemovesWholeSittings(db, DeleteTest(db, id).db)
  {
    var db' := DeleteTest(db, id).db;
    forall k | k in db'.passes && Earned(db.attempts, k) ensures Earned(db'.attempts, k) {
      var a :| a in db.attempts && db.attempts[a].passed && db.attempts[a].person == k.person
               && db.attempts[a].exam == Some(k.exam);
      assert a in db'.attempts;
    }
  }

  lemma ResetRemovesWhole(db: Db, person: int)
    ensures RemovesWholeSittings(db, ResetExam(db, person).db)
  {
    var db' := ResetExam(db, person).db;
    forall k | k in db'.passes && Earned(db.attempts, k) ensures Earned(db'.attempts, k) {
      var a :| a in db.attempts && db.attempts[a].passed && db.attempts[a].person == k.person
               && db.attempts[a].exam == Some(k.exam);
      assert a in db'.attempts;
    }
  }

  // ---------- recording keeps the history ----------

  lemma SittingsAfterRecord(db: Db, row: int, attempt: Attempt, p: int, exam: Exam)
    requires NextRow(db.attempts, row)
    ensures Sittings(db.attempts[row := attempt], p, exam) ==
            if attempt.person == p && attempt.exam == Some(exam)
            then Sittings(db.attempts, p, exam) + {row} else Sittings(db.attempts, p, exam)
    ensures row !in Sittings(db.attempts, p, exam)
  {}

  lemma EarnedAfterRecord(attempts: map<int, Attempt>, row: int, attempt: Attempt, k: PassKey)
    requires row !in attempts
    ensures Earned(attempts[row := attempt], k) <==>
            Earned(attempts, k) || (attempt.passed && attempt.person == k.person && attempt.exam == Some(k.exam))
  {
    var next := attempts[row := attempt];
    if Earned(attempts, k) {
      var a :| a in attempts && attempts[a].passed && attempts[a].person == k.person
               && attempts[a].exam == Some(k.exam);
      assert a in next && next[a] == attempts[a];
    }
    if attempt.passed && attempt.person == k.person && attempt.exam == Some(k.exam) {
      assert row in next && next[row] == attempt;
    }
  }

  lemma PassedIsEarned(attempts: map<int, Attempt>, a: int, exam: Exam)
    requires a in attempts && attempts[a].exam == Some(exam)
    ensures attempts[a].passed ==> Earned(attempts, PassKey(attempts[a].person, exam))
  {}

  /** Nothing can follow a pass: the person would hold the pass row already. */
  lemma RecordKeepsPassingLast(db: Db, carried: set<PassKey>, row: int, attempt: Attempt)
    requires PassingIsLast(db.attempts) && PassesOk(db, carried) && NextRow(db.attempts, row)
    requires attempt.exam.Some? && PassKey(attempt.person, attempt.exam.value) !in db.passes
    ensures PassingIsLast(db.attempts[row := attempt])
  {
    forall a | a in db.attempts && db.attempts[a].person == attempt.person && db.attempts[a].exam == attempt.exam
      ensures !db.attempts[a].passed
    {
      PassedIsEarned(db.attempts, a, attempt.exam.value);
    }
  }

  lemma RecordKeepsHistory(db: Db, carried: set<PassKey>, row: int, now: int, input: AttemptInput)
    requires Constraints(db) && History(db, carried) && NextRow(db.attempts, row)
    requires RecordAttempt(db, row, now, input).result.Ok?
    requires Backed(db.publications, NewAttempt(input))
    requires forall i :: i in db.publications && db.publications[i].exam == input.exam ==>
      db.publications[i].quiz.maxAttempts == input.maxAttempts
    ensures History(RecordAttempt(db, row, now, input).db, carried)
  {
    var next := RecordAttempt(db, row, now, input).db;
    var attempt := NewAttempt(input);
    RecordKeepsPassingLast(db, carried, row, attempt);
    forall p, i | i in next.publications
      ensures |Sittings(next.attempts, p, next.publications[i].exam)| <= next.publications[i].quiz.maxAttempts
    {
      SittingsAfterRecord(db, row, attempt, p, next.publications[i].exam);
    }
    RecordKeepsPasses(db, carried, row, now, input);
  }

  function NewAttempt(input: AttemptInput): Attempt {
    Attempt(input.person, Some(input.exam), input.score, input.total, input.passed, input.answers)
  }

  lemma RecordKeepsPasses(db: Db, carried: set<PassKey>, row: int, now: int, input: AttemptInput)
    requires PassesOk(db, carried) && NextRow(db.attempts, row)
    requires RecordAttempt(db, row, now, input).result.Ok?
    ensures PassesOk(RecordAttempt(db, row, now, input).db, carried)
  {
    var next := RecordAttempt(db, row, now, input).db;
    forall k ensures Earned(next.attempts, k) <==>
      Earned(db.attempts, k) || (input.passed && k == PassKey(input.person, input.exam))
    {
      EarnedAfterRecord(db.attempts, row, NewAttempt(input), k);
    }
  }

  lemma CarryKeepsHistory(db: Db, carried: set<PassKey>, exam: Exam)
    requires History(db, carried)
    ensures History(CarryPasses(db, exam), carried + (LegacyPasses(db.persons, exam).Keys - db.passes.Keys))
  {
    var next := CarryPasses(db, exam);
    assert next.passes.Keys == LegacyPasses(db.persons, exam).Keys + db.passes.Keys;
  }
}
