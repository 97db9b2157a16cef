/** What the transactions of src/db.rs store, row by row and field by field, and what that does to
    the access of people and keys. */
module Effects {
  import opened Wrappers
  import opened Text
  import opened Identifiers
  import opened Quizzes
  import opened Schema
  import opened Transactions
  import opened Queries
  import opened Keys

  // ---------- recording ----------

  /** All other tables. */
  ghost predicate SameExceptSittings(db: Db, db': Db) {
    && db'.persons == db.persons && db'.keys == db.keys && db'.tests == db.tests
    && db'.publications == db.publications && db'.active == db.active
  }

  /** An accepted attempt is stored, passed or not, with every field of the input, and it is the
      person's next attempt at the exam. All other attempts stay. */
  lemma AcceptedAttemptIsStored(db: Db, row: int, now: int, input: AttemptInput)
    requires row !in db.attempts && RecordAttempt(db, row, now, input).result.Ok?
    ensures var attempts := RecordAttempt(db, row, now, input).db.attempts;
      && attempts.Keys == db.attempts.Keys + {row}
      && (forall a :: a in db.attempts ==> attempts[a] == db.attempts[a])
      && attempts[row].person == input.person && attempts[row].exam == Some(input.exam)
      && attempts[row].score == input.score && attempts[row].total == input.total
      && attempts[row].passed == input.passed && attempts[row].answers == input.answers
      && Sittings(attempts, input.person, input.exam) == Sittings(db.attempts, input.person, input.exam) + {row}
      && RecordAttempt(db, row, now, input).result.value == |Sittings(attempts, input.person, input.exam)|
  {
    AcceptedRow(db, row, now, input);
    OneMoreSitting(db.attempts, RecordAttempt(db, row, now, input).db.attempts, row, input.person, input.exam);
  }

  lemma AcceptedRow(db: Db, row: int, now: int, input: AttemptInput)
    requires RecordAttempt(db, row, now, input).result.Ok?
    ensures RecordAttempt(db, row, now, input).db.attempts
            == db.attempts[row := Attempt(input.person, Some(input.exam), input.score, input.total, input.passed,
                                          input.answers)]
    ensures RecordAttempt(db, row, now, input).result.value == |Sittings(db.attempts, input.person, input.exam)| + 1
    ensures PassKey(input.person, input.exam) !in db.passes
    ensures RecordAttempt(db, row, now, input).db.passes
            == if input.passed then db.passes[PassKey(input.person, input.exam) := now] else db.passes
  {}

  lemma PassesGain(passes: map<PassKey, int>, passes': map<PassKey, int>, k: PassKey, now: int, passed: bool)
    requires k !in passes && passes' == if passed then passes[k := now] else passes
    ensures passes'.Keys == passes.Keys + if passed then {k} else {}
    ensures forall l :: l in passes ==> passes'[l] == passes[l]
    ensures passed ==> passes'[k] == now
  {}

  lemma OneMoreSitting(attempts: map<int, Attempt>, attempts': map<int, Attempt>, row: int, person: int, exam: Exam)
    requires row !in attempts && row in attempts' && attempts' == attempts[row := attempts'[row]]
    requires attempts'[row].person == person && attempts'[row].exam == Some(exam)
    ensures Sittings(attempts', person, exam) == Sittings(attempts, person, exam) + {row}
    ensures |Sittings(attempts', person, exam)| == |Sittings(attempts, person, exam)| + 1
  {
    var before := Sittings(attempts, person, exam);
    assert Sittings(attempts', person, exam) == before + {row};
    assert row !in before;
  }

  /** The pass row appears exactly with an accepted passing attempt; all other rows stay. */
  lemma AcceptedPassIsStored(db: Db, row: int, now: int, input: AttemptInput)
    requires RecordAttempt(db, row, now, input).result.Ok?
    ensures var next, k := RecordAttempt(db, row, now, input).db, PassKey(input.person, input.exam);
      && k !in db.passes
      && next.passes.Keys == db.passes.Keys + (if input.passed then {k} else {})
      && (forall l :: l in db.passes ==> next.passes[l] == db.passes[l])
      && (input.passed ==> next.passes[k] == now)
      && SameExceptSittings(db, next)
  {
    var k := PassKey(input.person, input.exam);
    RecordTouches(db, row, now, input);
    AcceptedRow(db, row, now, input);
    PassesGain(db.passes, RecordAttempt(db, row, now, input).db.passes, k, now, input.passed);
  }

  predicate WellFormed(input: AttemptInput) {
    && 1 <= input.total && input.score <= input.total && 1 <= input.maxAttempts
    && ValidBankId(input.exam.testId) && ValidRevision(input.exam.revision)
  }

  /** An attempt is accepted exactly if it is well formed, the person is there and enabled, has
      no pass for the exam and has attempts left; a refused one changes nothing. */
  lemma AttemptIsAcceptedWhen(db: Db, row: int, now: int, input: AttemptInput)
    ensures RecordAttempt(db, row, now, input).result.Ok? <==>
      && WellFormed(input) && input.person in db.persons && db.persons[input.person].enabled
      && PassKey(input.person, input.exam) !in db.passes
      && |Sittings(db.attempts, input.person, input.exam)| < input.maxAttempts
    ensures RecordAttempt(db, row, now, input).result.Err? ==> RecordAttempt(db, row, now, input).db == db
  {}

  /** Recording an attempt at the active exam changes the owner's verdict exactly if it passed,
      and nobody else's. */
  lemma RecordingDecidesVerdict(
    db: Db, row: int, now: int, input: AttemptInput, account: string, fingerprint: string)
    requires ActiveExam(db) == Some(input.exam) && RecordAttempt(db, row, now, input).result.Ok?
    requires ResolvePolicy(db, account, fingerprint).Ok? && ResolvePolicy(db, account, fingerprint).value.Some?
    ensures var before := ResolvePolicy(db, account, fingerprint).value.value;
      ResolvePolicy(RecordAttempt(db, row, now, input).db, account, fingerprint)
      == Ok(Some(before.(passed := before.passed || (input.passed && before.person == input.person))))
  {
    var next := RecordAttempt(db, row, now, input).db;
    RecordTouches(db, row, now, input);
    assert PolicyRows(next, account, fingerprint) == PolicyRows(db, account, fingerprint);
  }

  // ---------- who has access after a command ----------

  /** The key belongs to this person, and both are enabled or will be, apart from the account. */
  ghost predicate KeyOf(db: Db, k: int, fingerprint: string, person: int) {
    k in db.keys && db.keys[k].enabled && db.keys[k].fingerprint == fingerprint && db.keys[k].person == person
  }

  ghost predicate EnabledWith(db: Db, person: int, account: string) {
    person in db.persons && db.persons[person].enabled && db.persons[person].account == Some(account)
  }

  /** A new person has the trimmed name and the account, is enabled, and has neither keys nor
      attempts nor a pass; nobody's access changes. */
  lemma CreatedPerson(db: Db, id: int, name: string, account: Option<string>, onHost: bool)
    requires References(db) && id !in db.persons
    ensures var created := CreatePerson(db, id, name, account, onHost);
      && (created.result.Ok? <==> ValidDisplayName(name) && ValidAccount(account, onHost)
                                  && !AccountTaken(db.persons, account, {}))
      && (created.result.Ok? ==>
            && id in created.db.persons
            && View(created.db, id) == PersonView(Person(Trim(name), account, true, None), None, map[], 0)
            && forall k, u, f :: Opens(created.db, k, u, f) <==> Opens(db, k, u, f))
  {
    if CreatePerson(db, id, name, account, onHost).result.Ok? {
      NewPersonHasNothing(db, id, Person(Trim(name), account, true, None));
    }
  }

  lemma NewPersonHasNothing(db: Db, id: int, person: Person)
    requires References(db) && id !in db.persons
    ensures var next := db.(persons := db.persons[id := person]);
      && View(next, id) == PersonView(person, None, map[], 0)
      && forall k, u, f :: Opens(next, k, u, f) <==> Opens(db, k, u, f)
  {
    var next := db.(persons := db.persons[id := person]);
    forall k | k in db.keys ensures db.keys[k].person != id {
      assert db.keys[k].person in db.persons;
    }
    assert View(next, id).keys == map[];
    var exam := ActiveExam(next);
    if exam.Some? {
      forall a | a in db.attempts ensures db.attempts[a].person != id {
        assert db.attempts[a].person in db.persons;
      }
      assert Sittings(next.attempts, id, exam.value) == {};
    }
  }

  /** Changing the account of a person moves the access of the person's keys to it, and changes
      no other access. */
  lemma AccountMovesAccess(db: Db, id: int, account: Option<string>, onHost: bool)
    requires SetAccount(db, id, account, onHost).result.Ok?
    ensures var next := SetAccount(db, id, account, onHost).db;
      forall k, u, f :: Opens(next, k, u, f) <==>
        if k in db.keys && db.keys[k].person == id
        then KeyOf(db, k, f, id) && db.persons[id].enabled && account == Some(u)
        else Opens(db, k, u, f)
  {}

  /** The same when the name changes, too; the name is stored trimmed. */
  lemma UpdateMovesAccess(db: Db, id: int, name: string, account: Option<string>, onHost: bool)
    requires UpdatePerson(db, id, name, account, onHost).result.Ok?
    ensures var next := UpdatePerson(db, id, name, account, onHost).db;
      && next.persons[id].name == Trim(name) && next.persons[id].passedAt == db.persons[id].passedAt
      && forall k, u, f :: Opens(next, k, u, f) <==>
        if k in db.keys && db.keys[k].person == id
        then KeyOf(db, k, f, id) && db.persons[id].enabled && account == Some(u)
        else Opens(db, k, u, f)
  {}

  /** Disabling a person ends the access of exactly that person's keys. */
  lemma DisablingPersonEndsAccess(db: Db, id: int)
    requires id in db.persons
    ensures SetPersonEnabled(db, id, false).result.Ok?
    ensures forall k, u, f ::
      Opens(SetPersonEnabled(db, id, false).db, k, u, f) <==> Opens(db, k, u, f) && db.keys[k].person != id
  {}

  /** Enabling the person gives every enabled key the account of the person, and undoes the
      disabling of an enabled one. */
  lemma EnablingPersonGivesAccess(db: Db, id: int)
    requires id in db.persons
    ensures SetPersonEnabled(db, id, true).result.Ok?
    ensures forall k, u, f ::
      Opens(SetPersonEnabled(db, id, true).db, k, u, f) <==>
        Opens(db, k, u, f) || (KeyOf(db, k, f, id) && db.persons[id].account == Some(u))
    ensures db.persons[id].enabled ==> SetPersonEnabled(SetPersonEnabled(db, id, false).db, id, true).db == db
  {
    assert db.persons[id := db.persons[id].(enabled := true)] == db.persons[id := db.persons[id].(enabled := false)]
             [id := db.persons[id].(enabled := true)];
    assert db.persons[id].enabled ==> db.persons[id := db.persons[id].(enabled := true)] == db.persons;
  }

  /** Disabling a key ends its access alone; enabling it again undoes that. */
  lemma DisablingKeyEndsAccess(db: Db, id: int)
    requires id in db.keys
    ensures SetKeyEnabled(db, id, false).result.Ok? && SetKeyEnabled(db, id, true).result.Ok?
    ensures forall k, u, f ::
      Opens(SetKeyEnabled(db, id, false).db, k, u, f) <==> Opens(db, k, u, f) && k != id
    ensures forall k, u, f ::
      Opens(SetKeyEnabled(db, id, true).db, k, u, f) <==>
        Opens(db, k, u, f) || (k == id && f == db.keys[id].fingerprint && EnabledWith(db, db.keys[id].person, u))
    ensures db.keys[id].enabled ==> SetKeyEnabled(SetKeyEnabled(db, id, false).db, id, true).db == db
  {
    assert db.keys[id].enabled ==> db.keys[id := db.keys[id].(enabled := true)] == db.keys;
    assert db.keys[id := db.keys[id].(enabled := false)][id := db.keys[id].(enabled := true)]
           == db.keys[id := db.keys[id].(enabled := true)];
  }

  /** A registered key is stored with the parsed fields and opens exactly its owner's account;
      removing it takes exactly that back. */
  lemma AddedKeyOpens(db: Db, digest: Digest, id: int, person: int, line: string)
    requires References(db) && id !in db.keys
    ensures var added := AddKey(db, digest, id, person, line);
      && (added.result.Ok? <==> Parse(digest, line).Some? && person in db.persons
                                && !FingerprintTaken(db.keys, Parse(digest, line).value.fingerprint))
      && (added.result.Ok? ==>
            && var parsed := Parse(digest, line).value;
            && id in added.db.keys && added.db.keys[id].blob == parsed.blob
            && added.db.keys[id].keyType == parsed.keyType && added.db.keys[id].comment == parsed.comment
            && (forall k, u, f :: Opens(added.db, k, u, f) <==>
                  Opens(db, k, u, f) || (k == id && f == parsed.fingerprint && EnabledWith(db, person, u)))
            && RemoveKey(added.db, id).db == db)
  {
    var added := AddKey(db, digest, id, person, line);
    if added.result.Ok? {
      assert added.db.keys - {id} == db.keys;
    }
  }

  /** Removing a key ends its access alone. */
  lemma RemovedKeyOpensNothing(db: Db, id: int)
    requires id in db.keys
    ensures RemoveKey(db, id).result.Ok?
    ensures forall k, u, f :: Opens(RemoveKey(db, id).db, k, u, f) <==> Opens(db, k, u, f) && k != id
  {}

  /** Deleting a person ends the access of exactly that person's keys. */
  lemma DeletedPersonOpensNothing(db: Db, id: int)
    requires id in db.persons
    ensures forall k, u, f ::
      Opens(DeletePerson(db, id).db, k, u, f) <==> Opens(db, k, u, f) && db.keys[k].person != id
  {}

  // ---------- the list of people ----------

  /** The list shows every key exactly once, under its owner, as it is stored. */
  lemma KeysAreListedOnce(db: Db, k: int, person: int)
    requires References(db) && person in db.persons
    ensures k in View(db, person).keys <==> k in db.keys && db.keys[k].person == person
    ensures k in View(db, person).keys ==> View(db, person).keys[k] == db.keys[k]
  {}

  // ---------- tests ----------

  /** What a saved test reads back as: itself with its title trimmed. All other tests and all other
      tables stay. */
  ghost predicate Saved(db: Db, db': Db, id: string, test: Test) {
    && GetTest(db', id) == Ok(test.(title := Trim(test.title)))
    && (forall t :: t != id ==> GetTest(db', t) == GetTest(db, t))
    && db'.persons == db.persons && db'.keys == db.keys && db'.attempts == db.attempts && db'.passes == db.passes
    && db'.publications == db.publications && db'.active == db.active
  }

  lemma CreatedTestIsSaved(db: Db, id: string, test: Test)
    requires TestsOk(db)
    ensures CreateTest(db, id, test).result.Ok? <==> ValidTest(id, test) && id !in db.tests
    ensures CreateTest(db, id, test).result.Ok? ==> Saved(db, CreateTest(db, id, test).db, id, test)
  {
    if CreateTest(db, id, test).result.Ok? {
      StoredTestIsSaved(db, id, test);
    }
  }

  lemma UpdatedTestIsSaved(db: Db, id: string, inputId: string, test: Test)
    requires TestsOk(db)
    ensures UpdateTest(db, id, inputId, test).result.Ok? <==>
      ValidTest(id, test) && id == inputId && id in db.tests
    ensures UpdateTest(db, id, inputId, test).result.Ok? ==> Saved(db, UpdateTest(db, id, inputId, test).db, id, test)
  {
    if UpdateTest(db, id, inputId, test).result.Ok? {
      StoredTestIsSaved(db, id, test);
    }
  }

  lemma StoredTestIsSaved(db: Db, id: string, test: Test)
    requires TestsOk(db) && ValidTest(id, test)
    ensures Saved(db, db.(tests := db.tests[id := test.(title := Trim(test.title))]), id, test)
  {
    StoredTestKeepsTestsOk(db, id, test);
  }

  /** Reading a test fails as invalid for an invalid id, and as soon as one stored test is invalid. */
  lemma InvalidTestsCannotBeRead(db: Db, id: string)
    ensures GetTest(db, id) == Err(Invalid) <==> !ValidBankId(id) || !TestsOk(db)
    ensures GetTest(db, id) == Err(NotFound) <==> ValidBankId(id) && TestsOk(db) && id !in db.tests
  {}

  /** A deleted test cannot be read any more; all other tests can. */
  lemma DeletedTestIsGone(db: Db, id: string)
    requires TestsOk(db)
    ensures DeleteTest(db, id).result.Ok? <==>
      && ValidBankId(id) && id in db.tests
      && forall i :: i in db.publications ==> db.publications[i].exam.testId != id
    ensures DeleteTest(db, id).result.Ok? ==>
      && GetTest(DeleteTest(db, id).db, id) == Err(NotFound)
      && forall t :: t != id ==> GetTest(DeleteTest(db, id).db, t) == GetTest(db, t)
  {
    RemovedTestTouches(db, id);
  }

  lemma RemovedTestTouches(db: Db, id: string)
    requires TestsOk(db)
    ensures TestsOk(DeleteTest(db, id).db)
  {}

  // ---------- resets, publications and the carry-over ----------

  /** A reset leaves the person without legacy pass, without pass and attempts at the active exam,
      and everything else as it was. */
  lemma ResetClears(db: Db, person: int)
    requires person in db.persons
    ensures var next := ResetExam(db, person).db;
      && ResetExam(db, person).result.Ok?
      && next.persons.Keys == db.persons.Keys && next.persons[person].passedAt == None
      && next.persons[person].name == db.persons[person].name
      && next.persons[person].account == db.persons[person].account
      && next.persons[person].enabled == db.persons[person].enabled
      && (forall p :: p in db.persons && p != person ==> next.persons[p] == db.persons[p])
      && next.keys == db.keys && next.tests == db.tests
      && next.publications == db.publications && next.active == db.active
  {}

  lemma ResetClearsExam(db: Db, person: int, exam: Exam)
    requires person in db.persons && ActiveExam(db) == Some(exam)
    ensures var next := ResetExam(db, person).db;
      && PassKey(person, exam) !in next.passes && Sittings(next.attempts, person, exam) == {}
      && (forall k :: k in db.passes && k != PassKey(person, exam) ==>
            k in next.passes && next.passes[k] == db.passes[k])
      && (forall a :: a in db.attempts && a !in Sittings(db.attempts, person, exam) ==>
            a in next.attempts && next.attempts[a] == db.attempts[a])
  {
    var next := ResetExam(db, person).db;
    forall a ensures a !in Sittings(next.attempts, person, exam) {
      assert a in next.attempts ==> a !in Sittings(db.attempts, person, exam);
    }
  }

  /** A quiz can be published for a test exactly if it is valid and has the title and every setting
      of the test; then the source holds the quiz and the banks of the test. */
  lemma QuizIsPublishableWhen(db: Db, id: string, quiz: Quiz)
    requires TestsOk(db)
    ensures ReadSource(db, id, quiz).Ok? <==>
      && id in db.tests && Valid(quiz)
      && var test := db.tests[id];
      && quiz.title == test.title && quiz.threshold == test.threshold && quiz.maxAttempts == test.maxAttempts
      && quiz.questionLimit == test.questionLimit
      && quiz.shuffleQuestions == test.shuffleQuestions && quiz.shuffleChoices == test.shuffleChoices
    ensures ReadSource(db, id, quiz).Ok? ==>
      var source := ReadSource(db, id, quiz).value;
      source.testId == id && source.bankIds == db.tests[id].bankIds && source.quiz == quiz
  {
    if id in db.tests {
      assert ValidTest(id, db.tests[id]);
    }
  }

  /** Only a publication of the test itself can be activated, and then it is the active one. */
  lemma ActivatedWhen(db: Db, testId: string, publication: int)
    ensures Activate(db, testId, publication).result.Ok? <==>
      && ValidBankId(testId) && publication in db.publications && db.publications[publication].exam.testId == testId
    ensures Activate(db, testId, publication).result.Ok? ==>
      ActiveExam(Activate(db, testId, publication).db) == Some(db.publications[publication].exam)
  {}

  /** The carry-over gives every holder of a legacy pass a pass of the same time, unless the person
      has one already; nobody else gets one. */
  lemma CarriedPassesKeepTheirTime(db: Db, exam: Exam, p: int)
    ensures var next, k := CarryPasses(db, exam), PassKey(p, exam);
      && (k in next.passes <==> k in db.passes || (p in db.persons && db.persons[p].passedAt.Some?))
      && (k in next.passes ==>
            next.passes[k] == if k in db.passes then db.passes[k] else db.persons[p].passedAt.value)
      && (forall l: PassKey :: l.exam != exam ==> (l in next.passes <==> l in db.passes))
      && next.persons == db.persons
      && (p in db.persons ==> ClearLegacyPasses(next).persons[p] == db.persons[p].(passedAt := None))
  {}

  // ---------- refusals ----------

  /** Why each command of the administrator is refused. */
  lemma PersonRefusals(db: Db, id: int, name: string, account: Option<string>, onHost: bool)
    ensures var r := CreatePerson(db, id, name, account, onHost).result;
      && (r == Err(Invalid) <==> !ValidDisplayName(name) || !ValidAccount(account, onHost))
      && (r == Err(Conflict) <==>
            ValidDisplayName(name) && ValidAccount(account, onHost) && AccountTaken(db.persons, account, {}))
    ensures var r := UpdatePerson(db, id, name, account, onHost).result;
      && (r == Err(Invalid) <==> !ValidDisplayName(name) || !ValidAccount(account, onHost))
      && (r == Err(NotFound) <==> ValidDisplayName(name) && ValidAccount(account, onHost) && id !in db.persons)
      && (r == Err(Conflict) <==>
            && ValidDisplayName(name) && ValidAccount(account, onHost) && id in db.persons
            && AccountTaken(db.persons, account, {id}))
    ensures var r := SetAccount(db, id, account, onHost).result;
      && (r == Err(Invalid) <==> !ValidAccount(account, onHost))
      && (r == Err(NotFound) <==> ValidAccount(account, onHost) && id !in db.persons)
      && (r == Err(Conflict) <==>
            ValidAccount(account, onHost) && id in db.persons && AccountTaken(db.persons, account, {id}))
  {}
}
