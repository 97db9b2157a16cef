/** The reading queries of src/db.rs that decide access. */
module Queries {
  import opened Wrappers
  import opened Sets
  import opened Identifiers
  import opened Quizzes
  import opened Schema
  import opened Transactions

  datatype PolicyRecord = PolicyRecord(
    person: int, account: string, fingerprint: string, keyType: string, blob: string, passed: bool, exam: Exam)

  datatype Identity = Identity(person: int, name: string, passed: bool, attemptCount: nat, exam: Exam)

  datatype PersonView = PersonView(person: Person, passedAt: Option<int>, keys: map<int, Key>, attemptCount: nat)

  /** The rows of the policy join: enabled keys with this fingerprint of an enabled person with
      this account. */
  function PolicyRows(db: Db, account: string, fingerprint: string): set<int> {
    set k | k in db.keys && db.keys[k].enabled && db.keys[k].fingerprint == fingerprint
            && db.keys[k].person in db.persons && db.persons[db.keys[k].person].enabled
            && db.persons[db.keys[k].person].account == Some(account)
  }

  /** The row that `ORDER BY k.id ASC LIMIT 1` picks decides. */
  ghost function ResolvePolicy(db: Db, account: string, fingerprint: string): Result<Option<PolicyRecord>, GateError> {
    var rows := PolicyRows(db, account, fingerprint);
    var exam := ActiveExam(db);
    if !ValidUsername(account) || !ValidFingerprint(fingerprint) then Err(Invalid)
    else if rows == {} || exam.None? then Ok(None)
    else
      var key := db.keys[Least(rows)];
      if !ValidBankId(exam.value.testId) || !ValidRevision(exam.value.revision) then Err(Invalid)
      else
        Ok(Some(PolicyRecord(key.person, account, key.fingerprint, key.keyType, key.blob,
                             PassKey(key.person, exam.value) in db.passes, exam.value)))
  }

  /** The second read of `load_identity`, on another connection; it fails if the person is
      gone by then. */
  function ReadIdentity(db: Db, policy: PolicyRecord): Result<Identity, GateError> {
    if policy.person !in db.persons then Err(DatabaseError)
    else
      Ok(Identity(policy.person, db.persons[policy.person].name, policy.passed,
                  |Sittings(db.attempts, policy.person, policy.exam)|, policy.exam))
  }

  /** `load_identity` when nothing runs between its two reads. */
  ghost function LoadIdentity(db: Db, account: string, fingerprint: string): Result<Option<Identity>, GateError> {
    match ResolvePolicy(db, account, fingerprint)
    case Err(e) => Err(e)
    case Ok(None) => Ok(None)
    case Ok(Some(policy)) =>
      match ReadIdentity(db, policy)
      case Err(e) => Err(e)
      case Ok(identity) => Ok(Some(identity))
  }

  function PublishedTest(db: Db): Result<Option<Publication>, GateError> {
    var exam := ActiveExam(db);
    if exam.None? then Ok(None)
    else
      var publication := db.publications[db.active.value];
      if !ValidBankId(exam.value.testId) || !ValidRevision(exam.value.revision) || !Valid(publication.quiz)
      then Err(Invalid)
      else Ok(Some(publication))
  }

  /** One entry of `list_people`. */
  function View(db: Db, person: int): PersonView
    requires person in db.persons
  {
    var exam := ActiveExam(db);
    PersonView(
      db.persons[person],
      if exam.Some? && PassKey(person, exam.value) in db.passes
      then Some(db.passes[PassKey(person, exam.value)]) else None,
      map k | k in db.keys && db.keys[k].person == person :: db.keys[k],
      if exam.Some? then |Sittings(db.attempts, person, exam.value)| else 0)
  }

  /** The unique indexes leave at most one row in the policy join, so the order and the limit
      never choose between two people or two keys. */
  lemma PolicyJoinIsUnique(db: Db, account: string, fingerprint: string)
    requires Constraints(db)
    ensures |PolicyRows(db, account, fingerprint)| <= 1
    ensures forall p, q :: p in db.persons && q in db.persons ==>
      db.persons[p].account == db.persons[q].account == Some(account) ==> p == q
  {
    var rows := PolicyRows(db, account, fingerprint);
    if rows != {} {
      var k := Least(rows);
      assert rows == {k};
    }
  }

  /** Read off the tables: an enabled key with this fingerprint, and its enabled owner has this
      account. Type, blob and comment of the key play no part. */
  ghost predicate Opens(db: Db, k: int, account: string, fingerprint: string) {
    && k in db.keys && db.keys[k].enabled && db.keys[k].fingerprint == fingerprint
    && var owner := db.keys[k].person;
    && owner in db.persons && db.persons[owner].enabled && db.persons[owner].account == Some(account)
  }

  /** When access is resolved, and to what: exactly when a test is active and an enabled key with
      the fingerprint belongs to the enabled owner of the account. The record is that key, its
      owner and the active exam; the verdict is whether the owner holds a pass for it. */
  lemma PolicyMeans(db: Db, account: string, fingerprint: string)
    requires Constraints(db) && ValidUsername(account) && ValidFingerprint(fingerprint)
    requires db.active.Some? ==>
      var exam := db.publications[db.active.value].exam; ValidBankId(exam.testId) && ValidRevision(exam.revision)
    ensures ResolvePolicy(db, account, fingerprint).Ok?
    ensures var found := ResolvePolicy(db, account, fingerprint).value;
      && (found.Some? <==> db.active.Some? && exists k :: Opens(db, k, account, fingerprint))
      && (db.active.Some? ==> forall k :: Opens(db, k, account, fingerprint) ==>
            var exam, key := db.publications[db.active.value].exam, db.keys[k];
            && found.Some?
            && found.value.person == key.person && found.value.exam == exam
            && found.value.account == account && found.value.fingerprint == fingerprint
            && found.value.keyType == key.keyType && found.value.blob == key.blob
            && (found.value.passed <==> PassKey(key.person, exam) in db.passes))
  {
    var rows := PolicyRows(db, account, fingerprint);
    forall k ensures k in rows <==> Opens(db, k, account, fingerprint) {}
    if rows != {} {
      var first := Least(rows);
      assert Opens(db, first, account, fingerprint);
      forall k | k in rows ensures k == first {}
    } else {
      assert forall k :: !Opens(db, k, account, fingerprint);
    }
  }

  /** The published test is the active publication, unless a stored value of it is not valid. */
  lemma PublishedTestMeans(db: Db)
    requires References(db)
    ensures PublishedTest(db) == Ok(None) <==> db.active == None
    ensures db.active.Some? ==>
      var publication := db.publications[db.active.value];
      PublishedTest(db)
      == if ValidBankId(publication.exam.testId) && ValidRevision(publication.exam.revision) && Valid(publication.quiz)
         then Ok(Some(publication)) else Err(Invalid)
  {}

  /** The administrator's list, the policy and the identity of a session agree on the verdict
      and on the number of attempts. */
  lemma ViewsAgree(db: Db, account: string, fingerprint: string)
    requires Constraints(db)
    requires ResolvePolicy(db, account, fingerprint).Ok? && ResolvePolicy(db, account, fingerprint).value.Some?
    ensures var policy := ResolvePolicy(db, account, fingerprint).value.value;
      && policy.person in db.persons
      && var view, identity := View(db, policy.person), LoadIdentity(db, account, fingerprint);
      && identity.Ok? && identity.value.Some?
      && view.person.enabled && view.person.account == Some(account)
      && (exists k :: k in view.keys && view.keys[k].enabled && view.keys[k].fingerprint == fingerprint)
      && (view.passedAt.Some? <==> policy.passed)
      && (policy.passed ==> view.passedAt == Some(db.passes[PassKey(policy.person, policy.exam)]))
      && identity.value.value.person == policy.person && identity.value.value.name == view.person.name
      && identity.value.value.passed == policy.passed
      && identity.value.value.attemptCount == view.attemptCount
  {
    var k := Least(PolicyRows(db, account, fingerprint));
    var policy := ResolvePolicy(db, account, fingerprint).value.value;
    assert k in View(db, policy.person).keys;
  }
}
