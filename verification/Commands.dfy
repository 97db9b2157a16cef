/** The administrator's single-transaction commands, and the constraints that every
    transaction keeps. */
module Commands {
  import opened Wrappers
  import opened Schema
  import opened Transactions
  import opened Keys

  datatype Command =
    | NewPerson(id: int, name: string, account: Option<string>, onHost: bool)
    | ChangePerson(id: int, name: string, account: Option<string>, onHost: bool)
    | AssignAccount(id: int, account: Option<string>, onHost: bool)
    | EnablePerson(id: int, enabled: bool)
    | RemovePerson(id: int)
    | RegisterKey(id: int, person: int, line: string)
    | EnableKey(id: int, enabled: bool)
    | DropKey(id: int)
    | Reset(person: int)
    | NewTest(testId: string, test: Test)
    | ChangeTest(testId: string, inputId: string, test: Test)
    | RemoveTest(testId: string)
    | ActivatePublication(testId: string, publication: int)

  /** SQLite never hands out a row id that is in use. */
  predicate RowIdsAreFree(db: Db, c: Command) {
    && (c.NewPerson? ==> c.id !in db.persons)
    && (c.RegisterKey? ==> c.id !in db.keys)
  }

  function Execute(digest: Digest, db: Db, c: Command): Db {
    match c
    case NewPerson(id, name, account, onHost) => CreatePerson(db, id, name, account, onHost).db
    case ChangePerson(id, name, account, onHost) => UpdatePerson(db, id, name, account, onHost).db
    case AssignAccount(id, account, onHost) => SetAccount(db, id, account, onHost).db
    case EnablePerson(id, enabled) => SetPersonEnabled(db, id, enabled).db
    case RemovePerson(id) => DeletePerson(db, id).db
    case RegisterKey(id, person, line) => AddKey(db, digest, id, person, line).db
    case EnableKey(id, enabled) => SetKeyEnabled(db, id, enabled).db
    case DropKey(id) => RemoveKey(db, id).db
    case Reset(person) => ResetExam(db, person).db
    case NewTest(testId, test) => CreateTest(db, testId, test).db
    case ChangeTest(testId, inputId, test) => UpdateTest(db, testId, inputId, test).db
    case RemoveTest(testId) => DeleteTest(db, testId).db
    case ActivatePublication(testId, publication) => Activate(db, testId, publication).db
  }

  lemma NewAccountStaysUnique(persons: map<int, Person>, id: int, person: Person)
    requires UniqueAccounts(persons)
    requires !AccountTaken(persons, person.account, {id})
    ensures UniqueAccounts(persons[id := person])
  {
    forall q | q in persons && q !in {id}
      ensures person.account.Some? ==> persons[q].account != person.account
    {}
  }

  lemma PersonCommandKeepsConstraints(digest: Digest, db: Db, c: Command)
    requires Constraints(db) && RowIdsAreFree(db, c)
    requires c.NewPerson? || c.ChangePerson? || c.AssignAccount? || c.EnablePerson?
    ensures Constraints(Execute(digest, db, c))
  {
    var next := Execute(digest, db, c);
    if next != db {
      var id := c.id;
      assert !AccountTaken(db.persons, next.persons[id].account, {id});
      NewAccountStaysUnique(db.persons, id, next.persons[id]);
    }
  }

  lemma NewFingerprintStaysUnique(keys: map<int, Key>, id: int, key: Key)
    requires UniqueFingerprints(keys) && !FingerprintTaken(keys, key.fingerprint)
    ensures UniqueFingerprints(keys[id := key])
  {}

  lemma KeyCommandKeepsConstraints(digest: Digest, db: Db, c: Command)
    requires Constraints(db) && RowIdsAreFree(db, c)
    requires c.RegisterKey? || c.EnableKey? || c.DropKey?
    ensures Constraints(Execute(digest, db, c))
  {
    if c.RegisterKey? {
      var key := Parse(digest, c.line);
      if key.Some? && !FingerprintTaken(db.keys, key.value.fingerprint) {
        NewFingerprintStaysUnique(db.keys, c.id, Key(c.person, key.value.fingerprint, key.value.keyType,
                                                     key.value.blob, key.value.comment, true));
      }
    }
  }

  lemma RemovePersonKeepsConstraints(db: Db, id: int)
    requires Constraints(db)
    ensures Constraints(DeletePerson(db, id).db)
  {
    var next := DeletePerson(db, id).db;
    assert forall k :: k in next.keys ==> k in db.keys && next.keys[k] == db.keys[k];
    assert forall p :: p in next.persons ==> p in db.persons && next.persons[p] == db.persons[p];
  }

  lemma RemoveTestKeepsConstraints(db: Db, testId: string)
    requires Constraints(db)
    ensures Constraints(DeleteTest(db, testId).db)
  {}

  lemma ResetKeepsConstraints(db: Db, person: int)
    requires Constraints(db)
    ensures Constraints(ResetExam(db, person).db)
  {
    if person in db.persons {
      NewAccountStaysUnique(db.persons, person, db.persons[person].(passedAt := None));
    }
  }

  /** Every command, successful or refused, keeps the foreign keys and the unique indexes. */
  lemma CommandKeepsConstraints(digest: Digest, db: Db, c: Command)
    requires Constraints(db) && RowIdsAreFree(db, c)
    ensures Constraints(Execute(digest, db, c))
  {
    if c.NewPerson? || c.ChangePerson? || c.AssignAccount? || c.EnablePerson? {
      PersonCommandKeepsConstraints(digest, db, c);
    } else if c.RegisterKey? || c.EnableKey? || c.DropKey? {
      KeyCommandKeepsConstraints(digest, db, c);
    } else if c.RemovePerson? {
      RemovePersonKeepsConstraints(db, c.id);
    } else if c.RemoveTest? {
      RemoveTestKeepsConstraints(db, c.testId);
    } else if c.Reset? {
      ResetKeepsConstraints(db, c.person);
    } else {
      TestCommandKeepsConstraints(digest, db, c);
    }
  }

  predicate IsTestCommand(c: Command) {
    c.NewTest? || c.ChangeTest? || c.ActivatePublication?
  }

  lemma TestCommandTouches(digest: Digest, db: Db, c: Command)
    requires IsTestCommand(c)
    ensures var next := Execute(digest, db, c);
      && next == db.(tests := next.tests, active := next.active)
      && db.tests.Keys <= next.tests.Keys
      && (next.active == db.active || (next.active.Some? && next.active.value in db.publications))
    ensures TestsOk(db) ==> TestsOk(Execute(digest, db, c))
  {
    match c {
      case NewTest(testId, test) => CreateTestTouches(db, testId, test);
      case ChangeTest(testId, inputId, test) => UpdateTestTouches(db, testId, inputId, test);
      case _ =>
    }
  }

  lemma TestCommandKeepsConstraints(digest: Digest, db: Db, c: Command)
    requires Constraints(db) && IsTestCommand(c)
    ensures Constraints(Execute(digest, db, c))
  {
    TestCommandTouches(digest, db, c);
  }

  ghost predicate SameExams(db: Db, next: Db) {
    next.active == db.active && next.publications == db.publications && next.tests == db.tests
  }

  lemma AddKeyTouches(db: Db, digest: Digest, id: int, person: int, line: string)
    ensures SameExams(db, AddKey(db, digest, id, person, line).db)
  {}

  lemma ResetTouches(db: Db, person: int)
    ensures SameExams(db, ResetExam(db, person).db)
  {}

  lemma OtherCommandTouches(digest: Digest, db: Db, c: Command)
    requires !IsTestCommand(c) && !c.RemoveTest?
    ensures SameExams(db, Execute(digest, db, c))
  {
    match c {
      case RegisterKey(id, person, line) => AddKeyTouches(db, digest, id, person, line);
      case Reset(person) => ResetTouches(db, person);
      case _ =>
    }
  }

  lemma RemoveTestTouches(db: Db, testId: string)
    ensures var next := DeleteTest(db, testId).db;
      && next.active == db.active && next.publications == db.publications
      && (forall t :: t in next.tests ==> t in db.tests && next.tests[t] == db.tests[t])
  {}

  predicate Removes(c: Command) { c.RemovePerson? || c.RemoveTest? || c.Reset? }

  lemma OtherCommandsKeepAttempts(digest: Digest, db: Db, c: Command)
    requires !Removes(c)
    ensures Execute(digest, db, c).attempts == db.attempts && Execute(digest, db, c).passes == db.passes
  {
    if IsTestCommand(c) {
      TestCommandTouches(digest, db, c);
    }
  }

  /** Commands keep every publication, keep the pointer set, and store only valid tests. */
  lemma CommandKeepsExams(digest: Digest, db: Db, c: Command)
    ensures Execute(digest, db, c).publications == db.publications
    ensures db.active.Some? ==> Execute(digest, db, c).active.Some?
    ensures TestsOk(db) ==> TestsOk(Execute(digest, db, c))
  {
    if IsTestCommand(c) {
      TestCommandTouches(digest, db, c);
    } else if c.RemoveTest? {
      RemoveTestTouches(db, c.testId);
    } else {
      OtherCommandTouches(digest, db, c);
    }
  }

  lemma PublishKeepsConstraints(db: Db, row: int, revision: string, source: Source)
    requires Constraints(db) && row !in db.publications
    ensures Constraints(Publish(db, row, revision, source).db)
  {}

  lemma RecordKeepsConstraints(db: Db, row: int, now: int, input: AttemptInput)
    requires Constraints(db)
    ensures Constraints(RecordAttempt(db, row, now, input).db)
  {}

  lemma CarryKeepsConstraints(db: Db, exam: Exam)
    requires Constraints(db)
    ensures Constraints(CarryPasses(db, exam)) && Constraints(ClearLegacyPasses(db))
  {}

  /** The first clash decides: a command is refused for a taken account or fingerprint exactly
      when applying it would break a unique index. */
  lemma ConflictIsExact(db: Db, id: int, account: Option<string>)
    requires UniqueAccounts(db.persons) && id in db.persons
    ensures AccountTaken(db.persons, account, {id})
            <==> !UniqueAccounts(db.persons[id := db.persons[id].(account := account)])
  {
    var person := db.persons[id].(account := account);
    var next := db.persons[id := person];
    if AccountTaken(db.persons, account, {id}) {
      var q :| q in db.persons && q !in {id} && db.persons[q].account == account;
      assert id in next && q in next && next[id].account == next[q].account && id != q;
    } else {
      NewAccountStaysUnique(db.persons, id, person);
    }
  }
}
