/** Several starts of the program in a row, each of which may stop part way through the legacy
    bootstrap (src/db.rs, `ensure_legacy_test`). */
module Startups {
  import opened Wrappers
  import opened Identifiers
  import opened Quizzes
  import opened Schema
  import opened Transactions
  import opened Queries
  import opened Gate
  import opened GateInvariant
  import opened Bootstrap

  /** How far a start comes: its last statement that takes effect, if it comes to it. */
  datatype Stop = AfterDraft | AfterPublishing | AfterCarryOver | Never

  datatype Start = Start(quiz: Quiz, row: int, stop: Stop)

  /** The database after one start. */
  ghost function StartUp(db: Db, hash: RevisionHash, start: Start): Db {
    if PublishedTest(db) != Ok(None) then db
    else
      var quiz := start.quiz;
      var created := if db.tests == map[] then CreateTest(db, LEGACY_BANK_ID, LegacyTest(quiz)).db else db;
      match ReadSource(created, LEGACY_BANK_ID, quiz)
      case Err(_) => created
      case Ok(source) => if start.stop.AfterDraft? then created else PublishAndCarry(created, hash, source, start)
  }

  ghost function PublishAndCarry(db: Db, hash: RevisionHash, source: Source, start: Start): Db {
    AfterCommit(Publish(db, start.row, hash(source), source).db, start.stop)
  }

  ghost function AfterCommit(db: Db, stop: Stop): Db {
    if stop.AfterPublishing? then db
    else
      match PublishedTest(db)
      case Ok(Some(published)) =>
        var carried := CarryPasses(db, published.exam);
        if stop.AfterCarryOver? then carried else ClearLegacyPasses(carried)
      case _ => db
  }

  ghost function StartUps(db: Db, hash: RevisionHash, starts: seq<Start>): Db
    decreases |starts|
  {
    if starts == [] then db else StartUps(StartUp(db, hash, starts[0]), hash, starts[1..])
  }

  /** The start publishes and stops before it carries legacy passes over. */
  predicate LosesPasses(db: Db, start: Start) {
    db.active == None && CanBootstrap(db, start.quiz) && start.stop.AfterPublishing?
  }

  ghost predicate SomeStartLoses(db: Db, hash: RevisionHash, starts: seq<Start>)
    decreases |starts|
  {
    starts != [] && (LosesPasses(db, starts[0]) || SomeStartLoses(StartUp(db, hash, starts[0]), hash, starts[1..]))
  }

  // ---------- one start ----------

  ghost predicate Healthy(db: Db) { TestsOk(db) && QuizzesOk(db.publications) }

  /** A test is published and readable: later starts return early. */
  predicate Settled(db: Db) { ActiveExam(db).Some? && PublishedTest(db).Ok? && PublishedTest(db).value.Some? }

  lemma StartUpSteps(db: Db, hash: RevisionHash, start: Start)
    requires Healthy(db) && HexHash(hash) && Valid(start.quiz) && db.active == None
    ensures var stored := WithStoredTest(db, start.quiz);
      && Healthy(stored)
      && StartUp(db, hash, start)
         == if CanBootstrap(db, start.quiz) && !start.stop.AfterDraft?
            then PublishAndCarry(stored, hash, DraftSource(stored, start.quiz), start) else stored
  {
    var stored := WithStoredTest(db, start.quiz);
    if db.tests == map[] {
      DraftIsCreated(db, start.quiz);
    }
    DraftIsRead(stored, start.quiz);
    DraftMatches(db, start.quiz);
  }

  lemma AfterCommitIs(db: Db, stop: Stop)
    requires Settled(db)
    ensures var next := AfterCommit(db, stop);
      && Settled(next)
      && next.passes == if stop.AfterPublishing? then db.passes
                        else LegacyPasses(db.persons, ActiveExam(next).value) + db.passes
  {}

  lemma PublishingStart(db: Db, hash: RevisionHash, start: Start)
    requires Healthy(db) && HexHash(hash) && Valid(start.quiz)
    requires LEGACY_BANK_ID in db.tests
    ensures var next := PublishAndCarry(db, hash, DraftSource(db, start.quiz), start);
      && Settled(next)
      && next.passes == if start.stop.AfterPublishing? then db.passes
                        else LegacyPasses(db.persons, ActiveExam(next).value) + db.passes
  {
    var committed := WithPublishedDraft(db, hash, start.row, start.quiz);
    DraftIsPublished(db, hash, start.row, start.quiz);
    AfterCommitIs(committed, start.stop);
  }

  lemma UnstoppedPublishing(db: Db, hash: RevisionHash, start: Start)
    requires QuizzesOk(db.publications) && HexHash(hash) && Valid(start.quiz) && start.stop.Never?
    requires LEGACY_BANK_ID in db.tests && Matches(start.quiz, db.tests[LEGACY_BANK_ID])
    ensures PublishAndCarry(db, hash, DraftSource(db, start.quiz), start)
            == PublishDraft(db, hash, start.row, start.quiz).db
  {
    DraftIsPublished(db, hash, start.row, start.quiz);
  }

  /** A start that comes to its end is the bootstrap. */
  lemma UnstoppedStartIsBootstrap(db: Db, hash: RevisionHash, start: Start)
    requires Healthy(db) && HexHash(hash) && Valid(start.quiz) && start.stop.Never? && db.active == None
    ensures StartUp(db, hash, start) == EnsureLegacyTest(db, hash, start.row, start.quiz).db
  {
    var stored := WithStoredTest(db, start.quiz);
    StartUpSteps(db, hash, start);
    BootstrapSteps(db, hash, start.row, start.quiz);
    DraftMatches(db, start.quiz);
    if CanBootstrap(db, start.quiz) {
      UnstoppedPublishing(stored, hash, start);
    }
  }

  /** Until a start publishes, people, passes and publications stay as they are. */
  lemma OneStart(db: Db, hash: RevisionHash, start: Start)
    requires Healthy(db) && HexHash(hash) && Valid(start.quiz) && db.active == None
    ensures var next := StartUp(db, hash, start);
      if CanBootstrap(db, start.quiz) && !start.stop.AfterDraft? then
        && Settled(next)
        && next.passes == if LosesPasses(db, start) then db.passes
                          else LegacyPasses(db.persons, ActiveExam(next).value) + db.passes
      else
        && Healthy(next) && next.active == None && next.persons == db.persons && next.passes == db.passes
        && !LosesPasses(db, start)
  {
    StartUpSteps(db, hash, start);
    if CanBootstrap(db, start.quiz) && !start.stop.AfterDraft? {
      PublishingStart(WithStoredTest(db, start.quiz), hash, start);
    }
  }

  // ---------- all starts ----------

  lemma {:induction false} SettledStays(db: Db, hash: RevisionHash, starts: seq<Start>)
    requires Settled(db)
    ensures StartUps(db, hash, starts) == db && !SomeStartLoses(db, hash, starts)
    decreases |starts|
  {
    if starts != [] {
      assert StartUp(db, hash, starts[0]) == db;
      SettledStays(db, hash, starts[1..]);
    }
  }

  /** `passes` are the pass rows before the first start. */
  ghost predicate CarriedExactly(persons: map<int, Person>, passes: map<PassKey, int>, last: Db, lost: bool) {
    last.active.Some? ==>
      && ActiveExam(last).Some?
      && last.passes == if lost then passes else LegacyPasses(persons, ActiveExam(last).value) + passes
  }

  lemma {:induction false} StartsCarry(db: Db, hash: RevisionHash, starts: seq<Start>)
    requires Healthy(db) && HexHash(hash) && db.active == None
    requires forall start :: start in starts ==> Valid(start.quiz)
    ensures CarriedExactly(db.persons, db.passes, StartUps(db, hash, starts), SomeStartLoses(db, hash, starts))
    decreases |starts|
  {
    if starts != [] {
      assert starts[0] in starts;
      var next := StartUp(db, hash, starts[0]);
      OneStart(db, hash, starts[0]);
      if CanBootstrap(db, starts[0].quiz) && !starts[0].stop.AfterDraft? {
        SettledStays(next, hash, starts[1..]);
      } else {
        StartsCarry(next, hash, starts[1..]);
      }
    }
  }

  /** However many starts there are and wherever they stop: once a test is active, a person holds
      a pass for it exactly with a pass from before, or with a legacy pass unless some start
      stopped between its publication and its carry-over. Such a start loses all legacy passes for
      good, because every later start returns early. */
  lemma StartsCarryPassesExactly(o: Oracles, s: System, starts: seq<Start>, p: int)
    requires Inv(o, s) && HexHash(o.hash) && s.db.active == None && p in s.db.persons
    requires forall start :: start in starts ==> Valid(start.quiz)
    ensures var last := StartUps(s.db, o.hash, starts);
      last.active.Some? ==>
        && ActiveExam(last).Some?
        && (PassKey(p, ActiveExam(last).value) in last.passes <==>
              || PassKey(p, ActiveExam(last).value) in s.db.passes
              || (s.db.persons[p].passedAt.Some? && !SomeStartLoses(s.db, o.hash, starts)))
  {
    InvGivesQuizzes(o, s);
    StartsCarry(s.db, o.hash, starts);
  }
}
