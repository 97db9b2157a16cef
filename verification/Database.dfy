/** The database as the program updates it: one field per table, one method per transaction
    of src/db.rs. Each method is proved against the transaction's specification, and keeps the
    constraints. Row ids (`row`) and times (`now`) come from SQLite. */
module Database {
  import opened Wrappers
  import opened Text
  import opened Identifiers
  import opened Schema
  import opened Transactions
  import opened Commands
  import opened Keys

  class Tables {
    var persons: map<int, Person>
    var keys: map<int, Key>
    var tests: map<string, Test>
    var publications: map<int, Publication>
    var active: Option<int>
    var attempts: map<int, Attempt>
    var passes: map<PassKey, int>

    function Contents(): Db
      reads this
    {
      Db(persons, keys, tests, publications, active, attempts, passes)
    }

    ghost predicate Valid()
      reads this
    {
      Constraints(Contents())
    }

    constructor ()
      ensures Valid()
      ensures Contents() == Db(map[], map[], map[], map[], None, map[], map[])
    {
      persons, keys, tests, publications := map[], map[], map[], map[];
      active, attempts, passes := None, map[], map[];
    }

    method InsertPerson(row: int, name: string, account: Option<string>, onHost: bool)
      returns (r: Result<int, GateError>)
      requires Valid() && row !in persons
      modifies this
      ensures Valid()
      ensures Contents() == CreatePerson(old(Contents()), row, name, account, onHost).db
      ensures r == CreatePerson(old(Contents()), row, name, account, onHost).result
    {
      PersonCommandKeepsConstraints(_ => None, Contents(), NewPerson(row, name, account, onHost));
      if !ValidDisplayName(name) {
        return Err(Invalid);
      }
      if account.Some? && !(ValidUsername(account.value) && onHost) {
        return Err(Invalid);
      }
      if AccountTaken(persons, account, {}) {
        return Err(Conflict);
      }
      persons := persons[row := Person(Trim(name), account, true, None)];
      r := Ok(row);
    }

    method ChangePersonRow(id: int, name: string, account: Option<string>, onHost: bool)
      returns (r: Result<(), GateError>)
      requires Valid()
      modifies this`persons
      ensures Valid()
      ensures Contents() == UpdatePerson(old(Contents()), id, name, account, onHost).db
      ensures r == UpdatePerson(old(Contents()), id, name, account, onHost).result
    {
      PersonCommandKeepsConstraints(_ => None, Contents(), ChangePerson(id, name, account, onHost));
      if !ValidDisplayName(name) || (account.Some? && !(ValidUsername(account.value) && onHost)) {
        return Err(Invalid);
      }
      if id !in persons {
        return Err(NotFound);
      }
      if AccountTaken(persons, account, {id}) {
        return Err(Conflict);
      }
      var row := persons[id];
      persons := persons[id := Person(Trim(name), account, row.enabled, row.passedAt)];
      r := Ok(());
    }

    method SetEnabled(id: int, enabled: bool) returns (r: Result<(), GateError>)
      requires Valid()
      modifies this`persons
      ensures Valid()
      ensures Contents() == SetPersonEnabled(old(Contents()), id, enabled).db
      ensures r == SetPersonEnabled(old(Contents()), id, enabled).result
    {
      PersonCommandKeepsConstraints(_ => None, Contents(), EnablePerson(id, enabled));
      if id !in persons {
        return Err(NotFound);
      }
      persons := persons[id := persons[id].(enabled := enabled)];
      r := Ok(());
    }

    method AssignAccountRow(id: int, account: Option<string>, onHost: bool) returns (r: Result<(), GateError>)
      requires Valid()
      modifies this`persons
      ensures Valid()
      ensures Contents() == SetAccount(old(Contents()), id, account, onHost).db
      ensures r == SetAccount(old(Contents()), id, account, onHost).result
    {
      PersonCommandKeepsConstraints(_ => None, Contents(), AssignAccount(id, account, onHost));
      if account.Some? && !(ValidUsername(account.value) && onHost) {
        return Err(Invalid);
      }
      if id !in persons {
        return Err(NotFound);
      }
      if AccountTaken(persons, account, {id}) {
        return Err(Conflict);
      }
      persons := persons[id := persons[id].(account := account)];
      r := Ok(());
    }

    /** ON DELETE CASCADE from `persons`. */
    method CascadePerson(id: int)
      modifies this`keys, this`attempts, this`passes
      ensures keys == map k | k in old(keys) && old(keys)[k].person != id :: old(keys)[k]
      ensures attempts == map a | a in old(attempts) && old(attempts)[a].person != id :: old(attempts)[a]
      ensures passes == map k | k in old(passes) && k.person != id :: old(passes)[k]
    {
      keys := map k | k in keys && keys[k].person != id :: keys[k];
      attempts := map a | a in attempts && attempts[a].person != id :: attempts[a];
      passes := map k | k in passes && k.person != id :: passes[k];
    }

    method DeletePersonRow(id: int) returns (r: Result<(), GateError>)
      requires Valid()
      modifies this
      ensures Valid()
      ensures Contents() == DeletePerson(old(Contents()), id).db
      ensures r == DeletePerson(old(Contents()), id).result
    {
      RemovePersonKeepsConstraints(Contents(), id);
      if id !in persons {
        return Err(NotFound);
      }
      persons := persons - {id};
      CascadePerson(id);
      r := Ok(());
    }

    method InsertKey(digest: Digest, row: int, person: int, line: string) returns (r: Result<int, GateError>)
      requires Valid() && row !in keys
      modifies this`keys
      ensures Valid()
      ensures Contents() == AddKey(old(Contents()), digest, row, person, line).db
      ensures r == AddKey(old(Contents()), digest, row, person, line).result
    {
      KeyCommandKeepsConstraints(digest, Contents(), RegisterKey(row, person, line));
      var parsed := Parse(digest, line);
      if parsed.None? {
        return Err(Invalid);
      }
      if person !in persons {
        return Err(NotFound);
      }
      var key := parsed.value;
      if FingerprintTaken(keys, key.fingerprint) {
        return Err(Conflict);
      }
      keys := keys[row := Key(person, key.fingerprint, key.keyType, key.blob, key.comment, true)];
      r := Ok(row);
    }

    method EnableKeyRow(id: int, enabled: bool) returns (r: Result<(), GateError>)
      requires Valid()
      modifies this`keys
      ensures Valid()
      ensures Contents() == SetKeyEnabled(old(Contents()), id, enabled).db
      ensures r == SetKeyEnabled(old(Contents()), id, enabled).result
    {
      KeyCommandKeepsConstraints(_ => None, Contents(), EnableKey(id, enabled));
      if id !in keys {
        return Err(NotFound);
      }
      keys := keys[id := keys[id].(enabled := enabled)];
      r := Ok(());
    }

    method RemoveKeyRow(id: int) returns (r: Result<(), GateError>)
      requires Valid()
      modifies this`keys
      ensures Valid()
      ensures Contents() == RemoveKey(old(Contents()), id).db
      ensures r == RemoveKey(old(Contents()), id).result
    {
      KeyCommandKeepsConstraints(_ => None, Contents(), DropKey(id));
      if id !in keys {
        return Err(NotFound);
      }
      keys := keys - {id};
      r := Ok(());
    }

    method ResetExamRows(person: int) returns (r: Result<(), GateError>)
      requires Valid()
      modifies this
      ensures Valid()
      ensures Contents() == ResetExam(old(Contents()), person).db
      ensures r == ResetExam(old(Contents()), person).result
    {
      ResetKeepsConstraints(Contents(), person);
      if person !in persons {
        return Err(NotFound);
      }
      persons := persons[person := persons[person].(passedAt := None)];
      if active.Some? {
        var exam := publications[active.value].exam;
        passes := passes - {PassKey(person, exam)};
        var cleared := Sittings(attempts, person, exam);
        attempts := map a | a in attempts && a !in cleared :: attempts[a];
      }
      r := Ok(());
    }

    method InsertAttempt(row: int, now: int, input: AttemptInput) returns (r: Result<nat, GateError>)
      requires Valid()
      modifies this`attempts, this`passes
      ensures Valid()
      ensures Contents() == RecordAttempt(old(Contents()), row, now, input).db
      ensures r == RecordAttempt(old(Contents()), row, now, input).result
    {
      RecordKeepsConstraints(Contents(), row, now, input);
      if input.total == 0 || input.score > input.total || input.maxAttempts == 0 {
        return Err(Invalid);
      }
      if !ValidBankId(input.exam.testId) || !ValidRevision(input.exam.revision) {
        return Err(Invalid);
      }
      if input.person !in persons {
        return Err(NotFound);
      }
      if !persons[input.person].enabled {
        return Err(NotFound);
      }
      var pass := PassKey(input.person, input.exam);
      if pass in passes {
        return Err(AlreadyPassed);
      }
      var count := |Sittings(attempts, input.person, input.exam)|;
      if count >= input.maxAttempts {
        return Err(AttemptsExhausted);
      }
      attempts := attempts[row := Attempt(input.person, Some(input.exam), input.score, input.total,
                                          input.passed, input.answers)];
      if input.passed {
        passes := passes[pass := now];
      }
      r := Ok(count + 1);
    }

    method InsertTest(id: string, test: Test) returns (r: Result<(), GateError>)
      requires Valid()
      modifies this`tests
      ensures Valid()
      ensures Contents() == CreateTest(old(Contents()), id, test).db
      ensures r == CreateTest(old(Contents()), id, test).result
    {
      if !ValidTest(id, test) {
        return Err(Invalid);
      }
      if id in tests {
        return Err(Conflict);
      }
      tests := tests[id := test.(title := Trim(test.title))];
      r := Ok(());
    }

    method ChangeTestRow(id: string, inputId: string, test: Test) returns (r: Result<(), GateError>)
      requires Valid()
      modifies this`tests
      ensures Valid()
      ensures Contents() == UpdateTest(old(Contents()), id, inputId, test).db
      ensures r == UpdateTest(old(Contents()), id, inputId, test).result
    {
      if !ValidBankId(id) || !ValidTest(inputId, test) {
        return Err(Invalid);
      }
      if id != inputId {
        return Err(Invalid);
      }
      if id !in tests {
        return Err(NotFound);
      }
      tests := tests[id := test.(title := Trim(test.title))];
      r := Ok(());
    }

    /** The three deletions, in their order; `changed` says whether the test was there. */
    method DeleteTestStatements(id: string) returns (changed: bool)
      modifies this`attempts, this`passes, this`tests
      ensures attempts == map a | a in old(attempts)
        && !(old(attempts)[a].exam.Some? && old(attempts)[a].exam.value.testId == id) :: old(attempts)[a]
      ensures passes == map k | k in old(passes) && k.exam.testId != id :: old(passes)[k]
      ensures tests == old(tests) - {id} && changed == (id in old(tests))
    {
      attempts := map a | a in attempts
          && !(attempts[a].exam.Some? && attempts[a].exam.value.testId == id) :: attempts[a];
      passes := map k | k in passes && k.exam.testId != id :: passes[k];
      changed := id in tests;
      tests := tests - {id};
    }

    method DeleteTestRow(id: string) returns (r: Result<(), GateError>)
      requires Valid()
      modifies this
      ensures Valid()
      ensures Contents() == DeleteTest(old(Contents()), id).db
      ensures r == DeleteTest(old(Contents()), id).result
    {
      RemoveTestKeepsConstraints(Contents(), id);
      if !ValidBankId(id) {
        return Err(Invalid);
      }
      if active.Some? && publications[active.value].exam.testId == id {
        PublishedBy(Contents(), active.value);
        return Err(Conflict);
      }
      if IsPublished(Contents(), id) {
        return Err(Conflict);
      }
      var begun := (attempts, passes, tests);
      var changed := DeleteTestStatements(id);
      if !changed {
        // The transaction is dropped and rolled back.
        attempts, passes, tests := begun.0, begun.1, begun.2;
        return Err(NotFound);
      }
      r := Ok(());
    }

    /** The transaction of `publish_test`; `source` and `revision` come from its earlier read. */
    method PublishSource(row: int, revision: string, source: Source) returns (r: Result<int, GateError>)
      requires Valid() && row !in publications
      modifies this`publications, this`active
      ensures Valid()
      ensures Contents() == Publish(old(Contents()), row, revision, source).db
      ensures r == Publish(old(Contents()), row, revision, source).result
    {
      PublishKeepsConstraints(Contents(), row, revision, source);
      var exam := Exam(source.testId, revision);
      var id := row;
      if exists i :: i in publications && publications[i].exam == exam {
        id :| id in publications && publications[id].exam == exam;
      } else {
        var begun := publications;
        publications := publications[row := Publication(exam, source.quiz)];
        if source.testId !in tests {
          // The foreign key is violated: the statement fails and the transaction is rolled back.
          publications := begun;
          return Err(DatabaseError);
        }
      }
      active := Some(id);
      r := Ok(id);
    }

    method ActivateRow(testId: string, publication: int) returns (r: Result<int, GateError>)
      requires Valid()
      modifies this`active
      ensures Valid()
      ensures Contents() == Activate(old(Contents()), testId, publication).db
      ensures r == Activate(old(Contents()), testId, publication).result
    {
      if !ValidBankId(testId) {
        return Err(Invalid);
      }
      if !(publication in publications && publications[publication].exam.testId == testId) {
        return Err(NotFound);
      }
      active := Some(publication);
      r := Ok(publication);
    }

    /** The first of the two statements that end `ensure_legacy_test`, each on its own: present
        rows win. */
    method CarryLegacyPasses(exam: Exam)
      requires Valid()
      modifies this`passes
      ensures Valid()
      ensures Contents() == CarryPasses(old(Contents()), exam)
    {
      CarryKeepsConstraints(Contents(), exam);
      passes := LegacyPasses(persons, exam) + passes;
    }

    /** The second of them. */
    method ClearPassedAt()
      requires Valid()
      modifies this`persons
      ensures Valid()
      ensures Contents() == ClearLegacyPasses(old(Contents()))
    {
      CarryKeepsConstraints(Contents(), Exam("", ""));
      persons := map p | p in persons :: persons[p].(passedAt := None);
    }
  }
}
