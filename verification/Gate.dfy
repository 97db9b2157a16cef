/** The exam gate as a protocol of atomic steps. Any number of terminal sessions, publishing
    administrators and legacy carry-overs interleave with the administrator's commands; each
    transaction and each separately opened read is one step
    (src/db.rs with src/bin/ssh-exam-tui.rs). */
module Gate {
  import opened Wrappers
  import opened Quizzes
  import opened Tui
  import opened Schema
  import opened Transactions
  import opened Queries
  import opened Commands
  import opened Keys

  /** The hash functions the program uses. */
  datatype Oracles = Oracles(hash: RevisionHash, digest: Digest)

  /** What a terminal session remembers between its steps. */
  datatype Session =
    | Connecting(account: string, fingerprint: string)
    | Resolved(policy: PolicyRecord)
    | Identified(identity: Identity)
    | Sitting(identity: Identity, app: App)
    | Closed

  /** `publish_test` between its read and its transaction, and the end of
      `ensure_legacy_test` after it has read the published test. */
  datatype Worker =
    | Publishing(source: Source)
    | Carrying(exam: Exam)
    | Clearing
    | Finished

  /** `carried` and `origins` are history: the pass rows that a carry-over inserted, and the
      source each publication was made from. */
  datatype System = System(
    db: Db, sessions: map<int, Session>, workers: map<int, Worker>, carried: set<PassKey>, origins: map<int, Source>)

  datatype Action =
    | Connect(sid: int, account: string, fingerprint: string)
    | Resolve(sid: int)
    | Identify(sid: int)
    | Open(sid: int, prepared: PreparedQuiz)
    | Input(sid: int, event: Event, row: int, now: int)
    | Administer(command: Command)
    | ReadTest(wid: int, testId: string, quiz: Quiz)
    | CommitPublication(wid: int, row: int)
    | ReadActive(wid: int)
    | CarryOver(wid: int)
    | ClearLegacy(wid: int)

  ghost function WithSession(s: System, sid: int, session: Session): System {
    s.(sessions := s.sessions[sid := session])
  }

  /** The checks between reading the identity and starting the exam: the published test is
      read again and must still be the one the identity names. `prepared` is the outcome of
      the random preparation. */
  ghost function OpenExam(db: Db, identity: Identity, prepared: PreparedQuiz): Session {
    match PublishedTest(db)
    case Err(_) => Closed
    case Ok(None) => Closed
    case Ok(Some(published)) =>
      if identity.exam != published.exam then Closed
      else if identity.passed then Closed
      else if identity.attemptCount >= published.quiz.maxAttempts then Closed
      else if PreparedFrom(published.quiz, prepared) then Sitting(identity, Start(prepared))
      else Identified(identity)
  }

  function AttemptOf(identity: Identity, quiz: PreparedQuiz, submission: Submission): AttemptInput {
    AttemptInput(identity.person, identity.exam, submission.score.correct, submission.score.total,
                 submission.score.passed, submission.answers, quiz.maxAttempts)
  }

  /** One event of an exam in progress; the last answer records the attempt and ends the
      session, whether or not it is accepted. */
  ghost function InputStep(s: System, sid: int, event: Event, row: int, now: int): System
    requires sid in s.sessions && s.sessions[sid].Sitting?
  {
    var Sitting(identity, app) := s.sessions[sid];
    if !InProgress(app) then s
    else
      match Handle(app, event)
      case Running(next) => WithSession(s, sid, Sitting(identity, next))
      case Left => WithSession(s, sid, Closed)
      case Submitted(submission) =>
        if !NextRow(s.db.attempts, row) then s
        else
          var input := AttemptOf(identity, app.quiz, submission);
          WithSession(s, sid, Closed).(db := RecordAttempt(s.db, row, now, input).db)
  }

  ghost function SessionStep(s: System, a: Action): System {
    match a
    case Connect(sid, account, fingerprint) =>
      if sid in s.sessions then s else WithSession(s, sid, Connecting(account, fingerprint))
    case Resolve(sid) =>
      if sid in s.sessions && s.sessions[sid].Connecting? then
        match ResolvePolicy(s.db, s.sessions[sid].account, s.sessions[sid].fingerprint)
        case Ok(Some(policy)) => WithSession(s, sid, Resolved(policy))
        case _ => WithSession(s, sid, Closed)
      else s
    case Identify(sid) =>
      if sid in s.sessions && s.sessions[sid].Resolved? then
        match ReadIdentity(s.db, s.sessions[sid].policy)
        case Ok(identity) => WithSession(s, sid, Identified(identity))
        case Err(_) => WithSession(s, sid, Closed)
      else s
    case Open(sid, prepared) =>
      if sid in s.sessions && s.sessions[sid].Identified? then
        WithSession(s, sid, OpenExam(s.db, s.sessions[sid].identity, prepared))
      else s
    case Input(sid, event, row, now) =>
      if sid in s.sessions && s.sessions[sid].Sitting? then InputStep(s, sid, event, row, now) else s
    case _ => s
  }

  /** An administrator's transaction; `carried` keeps only rows that are still there. */
  ghost function AdminStep(o: Oracles, s: System, c: Command): System {
    if !RowIdsAreFree(s.db, c) then s
    else
      var db := Execute(o.digest, s.db, c);
      s.(db := db, carried := s.carried * db.passes.Keys)
  }

  predicate CanCommit(s: System, a: Action) {
    a.CommitPublication? && a.wid in s.workers && s.workers[a.wid].Publishing? && a.row !in s.db.publications
  }

  ghost function CommitStep(o: Oracles, s: System, wid: int, row: int): System
    requires wid in s.workers && s.workers[wid].Publishing?
  {
    var source := s.workers[wid].source;
    var db := Publish(s.db, row, o.hash(source), source).db;
    s.(db := db, workers := s.workers[wid := Finished],
       origins := if row in db.publications then s.origins[row := source] else s.origins)
  }

  ghost function WorkerStep(o: Oracles, s: System, a: Action): System {
    match a
    case ReadTest(wid, testId, quiz) =>
      if wid in s.workers then s
      else
        (match ReadSource(s.db, testId, quiz)
         case Ok(source) => s.(workers := s.workers[wid := Publishing(source)])
         case Err(_) => s)
    case CommitPublication(wid, row) =>
      if CanCommit(s, a) then CommitStep(o, s, wid, row) else s
    case ReadActive(wid) =>
      if wid in s.workers then s
      else
        (match PublishedTest(s.db)
         case Ok(Some(published)) => s.(workers := s.workers[wid := Carrying(published.exam)])
         case _ => s)
    case CarryOver(wid) =>
      if wid in s.workers && s.workers[wid].Carrying? then
        var exam := s.workers[wid].exam;
        s.(db := CarryPasses(s.db, exam), workers := s.workers[wid := Clearing],
           carried := s.carried + (LegacyPasses(s.db.persons, exam).Keys - s.db.passes.Keys))
      else s
    case ClearLegacy(wid) =>
      if wid in s.workers && s.workers[wid].Clearing? then
        s.(db := ClearLegacyPasses(s.db), workers := s.workers[wid := Finished])
      else s
    case _ => s
  }

  /** One atomic step. An action that is not enabled changes nothing. */
  ghost function Next(o: Oracles, s: System, a: Action): System {
    match a
    case Administer(command) => AdminStep(o, s, command)
    case Connect(_, _, _) => SessionStep(s, a)
    case Resolve(_) => SessionStep(s, a)
    case Identify(_) => SessionStep(s, a)
    case Open(_, _) => SessionStep(s, a)
    case Input(_, _, _, _) => SessionStep(s, a)
    case _ => WorkerStep(o, s, a)
  }

  ghost function Run(o: Oracles, s: System, actions: seq<Action>): System
    decreases |actions|
  {
    if actions == [] then s else Run(o, Next(o, s, actions[0]), actions[1..])
  }

  /** A database as the migration of versions 1 to 3 leaves it: people, keys and legacy
      attempts, but no tests yet. */
  ghost predicate Fresh(s: System) {
    && Constraints(s.db) && NoTests(s.db)
    && (forall a :: a in s.db.attempts ==> s.db.attempts[a].exam == None)
    && s.sessions == map[] && s.workers == map[] && s.carried == {} && s.origins == map[]
  }
}
