/** What each transaction of src/db.rs makes of the tables. A failed transaction leaves them
    as they were. Row ids and times are inputs: SQLite chooses them. */
module Transactions {
  import opened Wrappers
  import opened Text
  import opened Identifiers
  import opened Quizzes
  import opened Schema
  import opened Keys

  datatype GateError = Invalid | NotFound | Conflict | AttemptsExhausted | AlreadyPassed | DatabaseError

  datatype Txn<T> = Txn(db: Db, result: Result<T, GateError>)

  function Fail<T>(db: Db, e: GateError): Txn<T> { Txn(db, Err(e)) }

  function Done<T>(db: Db, value: T): Txn<T> { Txn(db, Ok(value)) }

  // ---------- people and keys ----------

  /** `onHost`: the Unix account exists on this host. */
  predicate ValidAccount(account: Option<string>, onHost: bool) {
    account.Some? ==> ValidUsername(account.value) && onHost
  }

  function CreatePerson(db: Db, id: int, name: string, account: Option<string>, onHost: bool): Txn<int> {
    if !ValidDisplayName(name) || !ValidAccount(account, onHost) then Fail(db, Invalid)
    else if AccountTaken(db.persons, account, {}) then Fail(db, Conflict)
    else Done(db.(persons := db.persons[id := Person(Trim(name), account, true, None)]), id)
  }

  function UpdatePerson(db: Db, id: int, name: string, account: Option<string>, onHost: bool): Txn<()> {
    if !ValidDisplayName(name) || !ValidAccount(account, onHost) then Fail(db, Invalid)
    else if id !in db.persons then Fail(db, NotFound)
    else if AccountTaken(db.persons, account, {id}) then Fail(db, Conflict)
    else Done(db.(persons := db.persons[id := db.persons[id].(name := Trim(name), account := account)]), ())
  }

  function SetAccount(db: Db, id: int, account: Option<string>, onHost: bool): Txn<()> {
    if !ValidAccount(account, onHost) then Fail(db, Invalid)
    else if id !in db.persons then Fail(db, NotFound)
    else if AccountTaken(db.persons, account, {id}) then Fail(db, Conflict)
    else Done(db.(persons := db.persons[id := db.persons[id].(account := account)]), ())
  }

  function SetPersonEnabled(db: Db, id: int, enabled: bool): Txn<()> {
    if id !in db.persons then Fail(db, NotFound)
    else Done(db.(persons := db.persons[id := db.persons[id].(enabled := enabled)]), ())
  }

  /** Deleting a person cascades to the person's keys, attempts and passes. */
  function DeletePerson(db: Db, id: int): Txn<()> {
    if id !in db.persons then Fail(db, NotFound)
    else
      Done(db.(persons := db.persons - {id},
               keys := map k | k in db.keys && db.keys[k].person != id :: db.keys[k],
               attempts := map a | a in db.attempts && db.attempts[a].person != id :: db.attempts[a],
               passes := map k | k in db.passes && k.person != id :: db.passes[k]), ())
  }

  function AddKey(db: Db, digest: Digest, id: int, person: int, line: string): Txn<int> {
    var key := Parse(digest, line);
    if key.None? then Fail(db, Invalid)
    else if person !in db.persons then Fail(db, NotFound)
    else if FingerprintTaken(db.keys, key.value.fingerprint) then Fail(db, Conflict)
    else
      Done(db.(keys := db.keys[id := Key(person, key.value.fingerprint, key.value.keyType, key.value.blob,
                                         key.value.comment, true)]), id)
  }

  function SetKeyEnabled(db: Db, id: int, enabled: bool): Txn<()> {
    if id !in db.keys then Fail(db, NotFound)
    else Done(db.(keys := db.keys[id := db.keys[id].(enabled := enabled)]), ())
  }

  function RemoveKey(db: Db, id: int): Txn<()> {
    if id !in db.keys then Fail(db, NotFound)
    else Done(db.(keys := db.keys - {id}), ())
  }

  // ---------- exams ----------

  /** The exam that the active pointer names, if any. */
  function ActiveExam(db: Db): Option<Exam> {
    if db.active.Some? && db.active.value in db.publications
    then Some(db.publications[db.active.value].exam) else None
  }

  /** Drops the attempts and the pass of one person at one exam. */
  function WithoutSittings(db: Db, person: int, exam: Exam): Db {
    db.(attempts := map a | a in db.attempts && a !in Sittings(db.attempts, person, exam) :: db.attempts[a],
        passes := db.passes - {PassKey(person, exam)})
  }

  function ResetExam(db: Db, person: int): Txn<()> {
    if person !in db.persons then Fail(db, NotFound)
    else
      var cleared := db.(persons := db.persons[person := db.persons[person].(passedAt := None)]);
      var exam := ActiveExam(db);
      Done(if exam.Some? then WithoutSittings(cleared, person, exam.value) else cleared, ())
  }

  datatype AttemptInput = AttemptInput(
    person: int, exam: Exam, score: u32, total: u32, passed: bool, answers: seq<nat>, maxAttempts: u32)

  /** Records a finished exam unless the person is gone, disabled, has passed this exam or has
      used all attempts; a passing attempt also records the pass. The result is the number of
      the attempt. */
  function RecordAttempt(db: Db, row: int, now: int, input: AttemptInput): Txn<nat> {
    var taken := |Sittings(db.attempts, input.person, input.exam)|;
    if input.total == 0 || input.score > input.total || input.maxAttempts == 0
       || !ValidBankId(input.exam.testId) || !ValidRevision(input.exam.revision) then Fail(db, Invalid)
    else if input.person !in db.persons || !db.persons[input.person].enabled then Fail(db, NotFound)
    else if PassKey(input.person, input.exam) in db.passes then Fail(db, AlreadyPassed)
    else if taken >= input.maxAttempts then Fail(db, AttemptsExhausted)
    else
      var attempt := Attempt(input.person, Some(input.exam), input.score, input.total, input.passed, input.answers);
      var passes := if input.passed then db.passes[PassKey(input.person, input.exam) := now] else db.passes;
      Done(db.(attempts := db.attempts[row := attempt], passes := passes), taken + 1)
  }

  lemma RecordTouches(db: Db, row: int, now: int, input: AttemptInput)
    ensures var recorded := RecordAttempt(db, row, now, input);
      && recorded.db == db.(attempts := recorded.db.attempts, passes := recorded.db.passes)
      && (recorded.result.Err? ==> recorded.db == db)
  {}

  // ---------- tests and publications ----------

  predicate ValidTest(id: string, test: Test) {
    && ValidBankId(id)
    && ValidDisplayName(test.title)
    && 1 <= |test.bankIds| <= 50
    && (forall i :: 0 <= i < |test.bankIds| ==> ValidBankId(test.bankIds[i]))
    && (forall i, j :: 0 <= i < j < |test.bankIds| ==> test.bankIds[i] != test.bankIds[j])
    && 1 <= test.threshold <= 100
    && 1 <= test.maxAttempts <= 100
    && (test.questionLimit.Some? ==> 1 <= test.questionLimit.value <= 200)
  }

  function CreateTest(db: Db, id: string, test: Test): Txn<()> {
    if !ValidTest(id, test) then Fail(db, Invalid)
    else if id in db.tests then Fail(db, Conflict)
    else Done(db.(tests := db.tests[id := test.(title := Trim(test.title))]), ())
  }

  function UpdateTest(db: Db, id: string, inputId: string, test: Test): Txn<()> {
    if !ValidBankId(id) || !ValidTest(inputId, test) || id != inputId then Fail(db, Invalid)
    else if id !in db.tests then Fail(db, NotFound)
    else Done(db.(tests := db.tests[id := test.(title := Trim(test.title))]), ())
  }

  /** Every stored test is valid. */
  ghost predicate TestsOk(db: Db) {
    forall t :: t in db.tests ==> ValidTest(t, db.tests[t])
  }

  lemma StoredTitleStaysValid(id: string, test: Test)
    requires ValidTest(id, test)
    ensures ValidTest(id, test.(title := Trim(test.title)))
  {
    TrimShape(test.title);
  }

  lemma StoredTestKeepsTestsOk(db: Db, id: string, test: Test)
    requires TestsOk(db) && ValidTest(id, test)
    ensures TestsOk(db.(tests := db.tests[id := test.(title := Trim(test.title))]))
  {
    StoredTitleStaysValid(id, test);
  }

  lemma CreateTestTouches(db: Db, id: string, test: Test)
    ensures var next := CreateTest(db, id, test).db;
      next == db.(tests := next.tests) && db.tests.Keys <= next.tests.Keys
    ensures TestsOk(db) ==> TestsOk(CreateTest(db, id, test).db)
  {
    if TestsOk(db) && ValidTest(id, test) {
      StoredTestKeepsTestsOk(db, id, test);
    }
  }

  lemma CreatedTest(db: Db, id: string, test: Test)
    requires CreateTest(db, id, test).result.Ok?
    ensures id !in db.tests && ValidBankId(id)
    ensures id in CreateTest(db, id, test).db.tests && CreateTest(db, id, test).db.tests - {id} == db.tests
  {}

  lemma UpdateTestTouches(db: Db, id: string, inputId: string, test: Test)
    ensures var next := UpdateTest(db, id, inputId, test).db;
      next == db.(tests := next.tests) && db.tests.Keys == next.tests.Keys
    ensures TestsOk(db) ==> TestsOk(UpdateTest(db, id, inputId, test).db)
  {
    if TestsOk(db) && ValidTest(inputId, test) {
      StoredTestKeepsTestsOk(db, inputId, test);
    }
  }

  predicate IsPublished(db: Db, id: string) {
    exists i :: i in db.publications && db.publications[i].exam.testId == id
  }

  lemma PublishedBy(db: Db, i: int)
    requires i in db.publications
    ensures IsPublished(db, db.publications[i].exam.testId)
  {}

  /** Only a test without publications can be deleted; its attempts and passes go with it. */
  function DeleteTest(db: Db, id: string): Txn<()> {
    if !ValidBankId(id) then Fail(db, Invalid)
    else if IsPublished(db, id) then Fail(db, Conflict)
    else if id !in db.tests then Fail(db, NotFound)
    else
      Done(db.(tests := db.tests - {id},
               attempts := map a | a in db.attempts
                   && !(db.attempts[a].exam.Some? && db.attempts[a].exam.value.testId == id) :: db.attempts[a],
               passes := map k | k in db.passes && k.exam.testId != id :: db.passes[k]), ())
  }

  lemma DeleteUnusedTest(db: Db, id: string)
    requires forall a :: a in db.attempts && db.attempts[a].exam.Some? ==> db.attempts[a].exam.value.testId != id
    requires forall k :: k in db.passes ==> k.exam.testId != id
    ensures var next := DeleteTest(db, id).db; next == db.(tests := next.tests)
  {
    var next := DeleteTest(db, id).db;
    forall a | a in db.attempts ensures a in next.attempts && next.attempts[a] == db.attempts[a] {
      assert db.attempts[a].exam.Some? ==> db.attempts[a].exam.value.testId != id;
    }
    assert next.attempts == db.attempts;
    assert next.passes == db.passes;
  }

  /** Everything the revision hash covers. */
  datatype Source = Source(testId: string, bankIds: seq<string>, quiz: Quiz)

  /** The revision of a publication: a hash of its source. */
  type RevisionHash = Source -> string

  /** A revision is written as 64 hexadecimal digits. */
  ghost predicate HexHash(hash: RevisionHash) {
    forall source :: ValidRevision(hash(source))
  }

  /** The source does not collide with another one that was published before. */
  ghost predicate NoCollision(hash: RevisionHash, origins: map<int, Source>, source: Source) {
    forall i :: i in origins && hash(origins[i]) == hash(source) ==> origins[i] == source
  }

  predicate Matches(quiz: Quiz, test: Test) {
    && quiz.title == test.title
    && quiz.threshold == test.threshold
    && quiz.maxAttempts == test.maxAttempts
    && quiz.questionLimit == test.questionLimit
    && quiz.shuffleQuestions == test.shuffleQuestions
    && quiz.shuffleChoices == test.shuffleChoices
  }

  /** `get_test`: reading the list fails if any stored row does not validate. */
  function GetTest(db: Db, id: string): Result<Test, GateError> {
    if !ValidBankId(id) || exists t :: t in db.tests && !ValidTest(t, db.tests[t]) then Err(Invalid)
    else if id !in db.tests then Err(NotFound)
    else Ok(db.tests[id])
  }

  /** The reading half of `publish_test`, on its own connection. */
  function ReadSource(db: Db, id: string, quiz: Quiz): Result<Source, GateError> {
    match GetTest(db, id)
    case Err(e) => Err(e)
    case Ok(test) =>
      if !Valid(quiz) || !Matches(quiz, test) then Err(Invalid)
      else Ok(Source(id, test.bankIds, quiz))
  }

  predicate HasExam(db: Db, exam: Exam) {
    exists i :: i in db.publications && db.publications[i].exam == exam
  }

  ghost function RowOf(db: Db, exam: Exam): int
    requires HasExam(db, exam)
  {
    var i :| i in db.publications && db.publications[i].exam == exam; i
  }

  /** The writing half of `publish_test`: reuse the row of the same revision or insert one, and
      make it active. Inserting fails if the test has been deleted since it was read. */
  ghost function Publish(db: Db, row: int, revision: string, source: Source): Txn<int> {
    var exam := Exam(source.testId, revision);
    if HasExam(db, exam) then Done(db.(active := Some(RowOf(db, exam))), RowOf(db, exam))
    else if source.testId !in db.tests then Fail(db, DatabaseError)
    else
      Done(db.(publications := db.publications[row := Publication(exam, source.quiz)], active := Some(row)), row)
  }

  function Activate(db: Db, testId: string, publication: int): Txn<int> {
    if !ValidBankId(testId) then Fail(db, Invalid)
    else if publication !in db.publications || db.publications[publication].exam.testId != testId
    then Fail(db, NotFound)
    else Done(db.(active := Some(publication)), publication)
  }

  // ---------- the legacy carry-over of ensure_legacy_test ----------

  function LegacyPasses(persons: map<int, Person>, exam: Exam): map<PassKey, int> {
    map p | p in persons && persons[p].passedAt.Some? :: PassKey(p, exam) := persons[p].passedAt.value
  }

  function WithoutLegacyPasses(persons: map<int, Person>): map<int, Person> {
    map p | p in persons :: persons[p].(passedAt := None)
  }

  /** Legacy passes become pass rows of one exam; present rows win. */
  function CarryPasses(db: Db, exam: Exam): Db {
    db.(passes := LegacyPasses(db.persons, exam) + db.passes)
  }

  function ClearLegacyPasses(db: Db): Db {
    db.(persons := WithoutLegacyPasses(db.persons))
  }
}
