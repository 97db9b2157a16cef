/** The tables at schema version 5 and the constraints SQLite enforces on them
    (migrations/0001_init.sql, 0004_tests_and_publications.sql,
    0005_direct_accounts_and_test_options.sql). */
module Schema {
  import opened Wrappers
  import opened Quizzes

  datatype Person = Person(name: string, account: Option<string>, enabled: bool, passedAt: Option<int>)

  datatype Key = Key(
    person: int, fingerprint: string, keyType: string, blob: string, comment: Option<string>, enabled: bool)

  datatype Test = Test(
    title: string, bankIds: seq<string>, threshold: u32, maxAttempts: u32, questionLimit: Option<u32>,
    shuffleQuestions: bool, shuffleChoices: bool)

  /** The identity of an exam: a test and one revision of it. */
  datatype Exam = Exam(testId: string, revision: string)

  datatype Publication = Publication(exam: Exam, quiz: Quiz)

  /** Attempts from before the fourth migration have no exam. */
  datatype Attempt = Attempt(
    person: int, exam: Option<Exam>, score: u32, total: u32, passed: bool, answers: seq<nat>)

  datatype PassKey = PassKey(person: int, exam: Exam)

  datatype Db = Db(
    persons: map<int, Person>,
    keys: map<int, Key>,
    tests: map<string, Test>,
    publications: map<int, Publication>,
    active: Option<int>,
    attempts: map<int, Attempt>,
    passes: map<PassKey, int>)

  /** Foreign keys. */
  ghost predicate References(db: Db) {
    && (forall k :: k in db.keys ==> db.keys[k].person in db.persons)
    && (forall i :: i in db.publications ==> db.publications[i].exam.testId in db.tests)
    && (db.active.Some? ==> db.active.value in db.publications)
    && (forall a :: a in db.attempts ==> db.attempts[a].person in db.persons)
    && (forall k :: k in db.passes ==> k.person in db.persons)
  }

  predicate UniqueAccounts(persons: map<int, Person>) {
    forall p, q :: p in persons && q in persons && persons[p].account.Some? ==>
      persons[p].account == persons[q].account ==> p == q
  }

  ghost predicate UniqueFingerprints(keys: map<int, Key>) {
    forall k, l :: k in keys && l in keys && keys[k].fingerprint == keys[l].fingerprint ==> k == l
  }

  ghost predicate UniqueExams(publications: map<int, Publication>) {
    forall i, j :: i in publications && j in publications && publications[i].exam == publications[j].exam ==> i == j
  }

  ghost predicate Constraints(db: Db) {
    && References(db)
    && UniqueAccounts(db.persons)
    && UniqueFingerprints(db.keys)
    && UniqueExams(db.publications)
  }

  ghost predicate NoTests(db: Db) {
    db.tests == map[] && db.publications == map[] && db.active == None && db.passes == map[]
  }

  predicate AccountTaken(persons: map<int, Person>, account: Option<string>, except: set<int>) {
    account.Some? && exists p :: p in persons && p !in except && persons[p].account == account
  }

  predicate FingerprintTaken(keys: map<int, Key>, fingerprint: string) {
    exists k :: k in keys && keys[k].fingerprint == fingerprint
  }

  /** The attempts of one person at one exam. */
  function Sittings(attempts: map<int, Attempt>, person: int, exam: Exam): set<int> {
    set a | a in attempts && attempts[a].person == person && attempts[a].exam == Some(exam)
  }

  /** A row id that SQLite hands to a new attempt: larger than every present one. */
  ghost predicate NextRow(attempts: map<int, Attempt>, id: int) {
    forall a :: a in attempts ==> a < id
  }
}
