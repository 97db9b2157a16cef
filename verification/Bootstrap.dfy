/** The legacy bootstrap of the first test (src/db.rs, `ensure_legacy_test`), which every start
    of the program runs. */
module Bootstrap {
  import opened Wrappers
  import opened Text
  import opened Identifiers
  import opened Quizzes
  import opened Schema
  import opened Transactions
  import opened Queries
  import opened Gate
  import opened GateInvariant
  import opened GateTheorems

  function LegacyTest(quiz: Quiz): Test {
    Test(quiz.title, [LEGACY_BANK_ID], quiz.threshold, quiz.maxAttempts, quiz.questionLimit,
         quiz.shuffleQuestions, quiz.shuffleChoices)
  }

  /** `ensure_legacy_test` when nothing runs between its steps. It is not one transaction: a
      failure keeps what earlier steps stored. */
  ghost function EnsureLegacyTest(db: Db, hash: RevisionHash, row: int, quiz: Quiz): Txn<Publication> {
    match PublishedTest(db)
    case Err(e) => Fail(db, e)
    case Ok(Some(published)) => Done(db, published)
    case Ok(None) =>
      var created := if db.tests == map[] then CreateTest(db, LEGACY_BANK_ID, LegacyTest(quiz)) else Done(db, ());
      if created.result.Err? then Fail(created.db, created.result.error)
      else
        match ReadSource(created.db, LEGACY_BANK_ID, quiz)
        case Err(e) => Fail(created.db, e)
        case Ok(source) =>
          var committed := Publish(created.db, row, hash(source), source);
          match PublishedTest(committed.db)
          case Ok(Some(published)) =>
            Done(ClearLegacyPasses(CarryPasses(committed.db, published.exam)), published)
          case _ => Fail(committed.db, NotFound)
  }

  // ---------- a database without tests ----------

  /** The draft that the bootstrap stores before it publishes. */
  function Draft(quiz: Quiz): Test { LegacyTest(quiz).(title := Trim(quiz.title)) }

  function WithDraft(db: Db, quiz: Quiz): Db { db.(tests := map[LEGACY_BANK_ID := Draft(quiz)]) }

  /** The database once the draft is stored. */
  function WithStoredTest(db: Db, quiz: Quiz): Db {
    if db.tests == map[] then WithDraft(db, quiz) else db
  }

  lemma LegacyIdIsValid()
    ensures ValidBankId(LEGACY_BANK_ID)
  {
    assert LEGACY_BANK_ID[0] == 'l' && LEGACY_BANK_ID[5] == 'y' && |LEGACY_BANK_ID| == 6;
  }

  lemma LegacyTestIsValid(quiz: Quiz)
    requires Valid(quiz)
    ensures ValidTest(LEGACY_BANK_ID, LegacyTest(quiz)) && ValidTest(LEGACY_BANK_ID, Draft(quiz))
  {
    TrimShape(quiz.title);
    LegacyIdIsValid();
    StoredTitleStaysValid(LEGACY_BANK_ID, LegacyTest(quiz));
  }

  lemma DraftIsCreated(db: Db, quiz: Quiz)
    requires db.tests == map[] && Valid(quiz)
    ensures CreateTest(db, LEGACY_BANK_ID, LegacyTest(quiz)) == Done(WithDraft(db, quiz), ())
    ensures TestsOk(WithDraft(db, quiz))
  {
    LegacyTestIsValid(quiz);
  }

  // ---------- publishing the draft ----------

  /** What is published: the quiz under the banks of the stored test. */
  function DraftSource(db: Db, quiz: Quiz): Source
    requires LEGACY_BANK_ID in db.tests
  {
    Source(LEGACY_BANK_ID, db.tests[LEGACY_BANK_ID].bankIds, quiz)
  }

  lemma DraftIsRead(db: Db, quiz: Quiz)
    requires TestsOk(db) && Valid(quiz)
    ensures ReadSource(db, LEGACY_BANK_ID, quiz)
            == if LEGACY_BANK_ID !in db.tests then Err(NotFound)
               else if !Matches(quiz, db.tests[LEGACY_BANK_ID]) then Err(Invalid)
               else Ok(DraftSource(db, quiz))
  {
    LegacyIdIsValid();
  }

  /** Publications whose quizzes and test ids are valid: what the invariant says of them. */
  ghost predicate QuizzesOk(publications: map<int, Publication>) {
    forall i :: i in publications ==> Valid(publications[i].quiz) && ValidBankId(publications[i].exam.testId)
  }

  /** Publishing the draft makes it the published test. */
  lemma DraftIsPublished(db: Db, hash: RevisionHash, row: int, quiz: Quiz)
    requires LEGACY_BANK_ID in db.tests && QuizzesOk(db.publications) && HexHash(hash) && Valid(quiz)
    ensures var source := DraftSource(db, quiz);
      var committed := Publish(db, row, hash(source), source).db;
      && committed == db.(publications := committed.publications, active := committed.active)
      && committed.active.Some? && committed.active.value in committed.publications
      && committed.publications[committed.active.value].exam == Exam(LEGACY_BANK_ID, hash(source))
      && PublishedTest(committed) == Ok(Some(committed.publications[committed.active.value]))
  {
    LegacyIdIsValid();
  }

  ghost function WithPublishedDraft(db: Db, hash: RevisionHash, row: int, quiz: Quiz): Db
    requires LEGACY_BANK_ID in db.tests
  {
    Publish(db, row, hash(DraftSource(db, quiz)), DraftSource(db, quiz)).db
  }

  /** The bootstrap from where the test is stored. */
  ghost function PublishDraft(db: Db, hash: RevisionHash, row: int, quiz: Quiz): Txn<Publication> {
    if LEGACY_BANK_ID !in db.tests then Fail(db, NotFound)
    else if !Matches(quiz, db.tests[LEGACY_BANK_ID]) then Fail(db, Invalid)
    else
      var committed := WithPublishedDraft(db, hash, row, quiz);
      if committed.active.None? || committed.active.value !in committed.publications then Fail(committed, NotFound)
      else
        var published := committed.publications[committed.active.value];
        Done(ClearLegacyPasses(CarryPasses(committed, published.exam)), published)
  }

  lemma BootstrapSteps(db: Db, hash: RevisionHash, row: int, quiz: Quiz)
    requires TestsOk(db) && QuizzesOk(db.publications) && HexHash(hash) && Valid(quiz) && db.active == None
    ensures EnsureLegacyTest(db, hash, row, quiz)
            == PublishDraft(WithStoredTest(db, quiz), hash, row, quiz)
  {
    var created := WithStoredTest(db, quiz);
    if db.tests == map[] {
      DraftIsCreated(db, quiz);
    }
    DraftIsRead(created, quiz);
    if LEGACY_BANK_ID in created.tests && Matches(quiz, created.tests[LEGACY_BANK_ID]) {
      DraftIsPublished(created, hash, row, quiz);
    }
  }

  // ---------- when it succeeds ----------

  /** A test is active; or there is no test and the title is trimmed; or the stored legacy test
      has the title and the settings of the quiz. */
  predicate CanBootstrap(db: Db, quiz: Quiz) {
    || db.active.Some?
    || (db.tests == map[] && Trim(quiz.title) == quiz.title)
    || (LEGACY_BANK_ID in db.tests && Matches(quiz, db.tests[LEGACY_BANK_ID]))
  }

  lemma DraftMatches(db: Db, quiz: Quiz)
    ensures Matches(quiz, WithDraft(db, quiz).tests[LEGACY_BANK_ID]) <==> Trim(quiz.title) == quiz.title
  {}

  /** In every state that the gate can reach, the bootstrap of a valid quiz succeeds exactly if
      it can. With a test active it changes nothing; when it fails it changes nothing but the
      draft that it may have stored. */
  lemma BootstrapSucceedsExactly(o: Oracles, s: System, row: int, quiz: Quiz)
    requires Inv(o, s) && HexHash(o.hash) && Valid(quiz) && row !in s.db.publications
    ensures var r := EnsureLegacyTest(s.db, o.hash, row, quiz);
      && (r.result.Ok? <==> CanBootstrap(s.db, quiz))
      && (s.db.active.Some? ==> r.db == s.db)
      && (r.result.Err? ==> r.db == WithStoredTest(s.db, quiz))
  {
    InvGivesQuizzes(o, s);
    if s.db.active.Some? {
      ActiveTestIsPublished(o, s);
    } else {
      BootstrapOutcome(s.db, o.hash, row, quiz);
    }
  }

  lemma BootstrapOutcome(db: Db, hash: RevisionHash, row: int, quiz: Quiz)
    requires TestsOk(db) && QuizzesOk(db.publications) && HexHash(hash) && Valid(quiz) && db.active == None
    ensures var r := EnsureLegacyTest(db, hash, row, quiz);
      && (r.result.Ok? <==> CanBootstrap(db, quiz))
      && (r.result.Err? ==> r.db == WithStoredTest(db, quiz))
  {
    var created := WithStoredTest(db, quiz);
    BootstrapSteps(db, hash, row, quiz);
    DraftMatches(db, quiz);
    if LEGACY_BANK_ID in created.tests {
      DraftIsPublished(created, hash, row, quiz);
    }
  }

  lemma InvGivesQuizzes(o: Oracles, s: System)
    requires Inv(o, s)
    ensures TestsOk(s.db) && QuizzesOk(s.db.publications)
  {}

  /** What a bootstrap that publishes leaves: the quiz is active, unless its revision collides,
      and a person holds a pass for it exactly with a pass from before or a legacy pass. */
  lemma BootstrapCarriesPasses(o: Oracles, s: System, row: int, quiz: Quiz)
    requires Inv(o, s) && HexHash(o.hash) && Valid(quiz) && row !in s.db.publications
    requires s.db.active == None && CanBootstrap(s.db, quiz)
    ensures var r := EnsureLegacyTest(s.db, o.hash, row, quiz);
      && r.result.Ok? && ActiveExam(r.db) == Some(r.result.value.exam)
      && r.result.value.exam.testId == LEGACY_BANK_ID
      && (forall p :: p in s.db.persons ==>
            && (PassKey(p, r.result.value.exam) in r.db.passes <==>
                  s.db.persons[p].passedAt.Some? || PassKey(p, r.result.value.exam) in s.db.passes)
            && p in r.db.persons && r.db.persons[p] == s.db.persons[p].(passedAt := None))
      && (forall k :: k in r.db.passes && k.exam != r.result.value.exam ==> k in s.db.passes)
  {
    InvGivesQuizzes(o, s);
    CarriedByBootstrap(s.db, o.hash, row, quiz);
  }

  lemma CarriedByBootstrap(db: Db, hash: RevisionHash, row: int, quiz: Quiz)
    requires TestsOk(db) && QuizzesOk(db.publications) && HexHash(hash) && Valid(quiz)
    requires db.active == None && CanBootstrap(db, quiz)
    ensures var r := EnsureLegacyTest(db, hash, row, quiz);
      && r.result.Ok? && ActiveExam(r.db) == Some(r.result.value.exam)
      && r.result.value.exam.testId == LEGACY_BANK_ID
      && r.db.persons == WithoutLegacyPasses(db.persons)
      && r.db.passes == LegacyPasses(db.persons, r.result.value.exam) + db.passes
  {
    var created := WithStoredTest(db, quiz);
    BootstrapSteps(db, hash, row, quiz);
    DraftMatches(db, quiz);
    DraftIsPublished(created, hash, row, quiz);
  }

  lemma PublishedQuizIs(o: Oracles, db: Db, origins: map<int, Source>, row: int, quiz: Quiz)
    requires LEGACY_BANK_ID in db.tests && PublicationsOk(o, db.publications, origins)
    requires NoCollision(o.hash, origins, DraftSource(db, quiz))
    ensures var committed := WithPublishedDraft(db, o.hash, row, quiz);
      && committed.active.Some? && committed.active.value in committed.publications
      && committed.publications[committed.active.value].quiz == quiz
  {
    var source := DraftSource(db, quiz);
    var exam := Exam(LEGACY_BANK_ID, o.hash(source));
    if HasExam(db, exam) {
      var i := RowOf(db, exam);
      assert i in origins && o.hash(origins[i]) == o.hash(source);
    }
  }

  lemma BootstrapResult(db: Db, hash: RevisionHash, row: int, quiz: Quiz)
    requires TestsOk(db) && QuizzesOk(db.publications) && HexHash(hash) && Valid(quiz)
    requires db.active == None && CanBootstrap(db, quiz)
    ensures var stored, r := WithStoredTest(db, quiz), EnsureLegacyTest(db, hash, row, quiz).result;
      && LEGACY_BANK_ID in stored.tests && r.Ok?
      && var committed := WithPublishedDraft(stored, hash, row, quiz);
      && committed.active.Some? && committed.active.value in committed.publications
      && r.value == committed.publications[committed.active.value]
  {
    BootstrapSteps(db, hash, row, quiz);
    DraftMatches(db, quiz);
    DraftIsPublished(WithStoredTest(db, quiz), hash, row, quiz);
  }

  /** What is published is the quiz itself, unless its revision collides with another one. */
  lemma BootstrapPublishesQuiz(o: Oracles, s: System, row: int, quiz: Quiz)
    requires Inv(o, s) && HexHash(o.hash) && Valid(quiz) && row !in s.db.publications
    requires s.db.active == None && CanBootstrap(s.db, quiz)
    requires NoCollision(o.hash, s.origins, DraftSource(WithStoredTest(s.db, quiz), quiz))
    ensures EnsureLegacyTest(s.db, o.hash, row, quiz).result.Ok?
    ensures EnsureLegacyTest(s.db, o.hash, row, quiz).result.value.quiz == quiz
  {
    InvGivesQuizzes(o, s);
    BootstrapResult(s.db, o.hash, row, quiz);
    var stored := WithStoredTest(s.db, quiz);
    PublishedQuizIs(o, stored, s.origins, row, quiz);
  }

  // ---------- the first start and the next one ----------

  lemma FirstQuizIsPublished(db: Db, hash: RevisionHash, row: int, quiz: Quiz)
    requires NoTests(db) && HexHash(hash) && Valid(quiz) && Trim(quiz.title) == quiz.title
    ensures EnsureLegacyTest(db, hash, row, quiz).result.Ok?
    ensures EnsureLegacyTest(db, hash, row, quiz).result.value.quiz == quiz
  {
    BootstrapResult(db, hash, row, quiz);
    PublishedQuizIs(Oracles(hash, _ => None), WithDraft(db, quiz), map[], row, quiz);
  }

  /** On a database without tests the bootstrap succeeds exactly if the title has no surrounding
      white space. Then the quiz is published and active, and exactly the people with a legacy
      pass hold a pass for it; otherwise only the draft is stored. */
  lemma FirstBootstrapIsExact(db: Db, hash: RevisionHash, row: int, quiz: Quiz)
    requires NoTests(db) && HexHash(hash) && Valid(quiz)
    ensures var r := EnsureLegacyTest(db, hash, row, quiz);
      && (r.result.Ok? <==> Trim(quiz.title) == quiz.title)
      && (r.result.Ok? ==>
            && r.result.value.quiz == quiz
            && ActiveExam(r.db) == Some(r.result.value.exam)
            && (forall k :: k in r.db.passes <==>
                  k.exam == r.result.value.exam && k.person in db.persons && db.persons[k.person].passedAt.Some?))
      && (r.result.Err? ==> r.db == WithDraft(db, quiz))
  {
    BootstrapOutcome(db, hash, row, quiz);
    if Trim(quiz.title) == quiz.title {
      FirstQuizIsPublished(db, hash, row, quiz);
      CarriedByBootstrap(db, hash, row, quiz);
    }
  }

  /** A failed first start leaves its draft behind, and the next start succeeds exactly if the
      corrected quiz has the trimmed title and all settings of the first one. */
  lemma RetryMustMatchDraft(db: Db, hash: RevisionHash, row: int, first: Quiz, second: Quiz)
    requires NoTests(db) && HexHash(hash) && Valid(first) && Valid(second) && Trim(first.title) != first.title
    ensures var failed := EnsureLegacyTest(db, hash, row, first);
      && failed.result.Err?
      && (EnsureLegacyTest(failed.db, hash, row, second).result.Ok? <==> Matches(second, Draft(first)))
      && (EnsureLegacyTest(failed.db, hash, row, second).result.Err? ==>
            EnsureLegacyTest(failed.db, hash, row, second).db == failed.db)
  {
    BootstrapOutcome(db, hash, row, first);
    LegacyTestIsValid(first);
    BootstrapOutcome(WithDraft(db, first), hash, row, second);
  }

  /** So a valid quiz with a trimmed title is refused when only the title was replaced. */
  lemma CorrectedTitleIsRefused(db: Db, hash: RevisionHash, row: int, first: Quiz, title: string)
    requires NoTests(db) && HexHash(hash) && Valid(first) && Trim(first.title) != first.title
    requires Valid(first.(title := title)) && Trim(title) == title
    ensures var failed := EnsureLegacyTest(db, hash, row, first).db;
      EnsureLegacyTest(failed, hash, row, first.(title := title)).result.Ok? <==> title == Trim(first.title)
  {
    RetryMustMatchDraft(db, hash, row, first, first.(title := title));
  }
}
