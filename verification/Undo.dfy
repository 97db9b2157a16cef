/** What one transaction takes back of another, and what it leaves alone (src/db.rs). */
module Undo {
  import opened Wrappers
  import opened Schema
  import opened Transactions
  import opened Queries

  /** Deleting a person who was just created restores the database. */
  lemma DeletingUndoesCreating(db: Db, id: int, name: string, account: Option<string>, onHost: bool)
    requires Constraints(db) && id !in db.persons
    requires CreatePerson(db, id, name, account, onHost).result.Ok?
    ensures DeletePerson(CreatePerson(db, id, name, account, onHost).db, id) == Done(db, ())
  {
    DeletingUndoesInserting(db, id, CreatePerson(db, id, name, account, onHost).db.persons[id]);
  }

  lemma DeletingUndoesInserting(db: Db, id: int, person: Person)
    requires References(db) && id !in db.persons
    ensures DeletePerson(db.(persons := db.persons[id := person]), id) == Done(db, ())
  {
    var next := DeletePerson(db.(persons := db.persons[id := person]), id).db;
    forall k | k in db.keys ensures k in next.keys && next.keys[k] == db.keys[k] {
      assert db.keys[k].person in db.persons;
    }
    forall a | a in db.attempts ensures a in next.attempts && next.attempts[a] == db.attempts[a] {
      assert db.attempts[a].person in db.persons;
    }
    assert next.persons == db.persons;
    assert next.keys == db.keys;
    assert next.attempts == db.attempts;
    assert next.passes == db.passes;
  }

  /** Deleting a person leaves exactly what belongs to other people. */
  lemma DeletingLeavesOthers(db: Db, id: int, other: int)
    requires id in db.persons && other != id
    ensures var next := DeletePerson(db, id).db;
      && id !in next.persons
      && (forall k :: k in next.keys <==> k in db.keys && db.keys[k].person != id)
      && (forall a :: a in next.attempts <==> a in db.attempts && db.attempts[a].person != id)
      && (forall k :: k in next.passes <==> k in db.passes && k.person != id)
      && (other in db.persons ==> other in next.persons && View(next, other) == View(db, other))
  {
    var next := DeletePerson(db, id).db;
    if other in db.persons {
      assert View(next, other).keys == View(db, other).keys;
      assert forall exam :: Sittings(next.attempts, other, exam) == Sittings(db.attempts, other, exam);
    }
  }

  lemma SittingsDrop(db: Db, person: int, exam: Exam)
    ensures var next := WithoutSittings(db, person, exam);
      && Sittings(next.attempts, person, exam) == {}
      && (forall k :: k in next.passes <==> k in db.passes && k != PassKey(person, exam))
  {
    var next := WithoutSittings(db, person, exam);
    forall a ensures a !in Sittings(next.attempts, person, exam) {
      assert a in next.attempts ==> a !in Sittings(db.attempts, person, exam);
    }
  }

  /** After a reset the next attempt is the first one: it is refused neither for a pass nor for
      exhausted attempts. */
  lemma ResettingReopens(db: Db, row: int, now: int, input: AttemptInput)
    requires input.person in db.persons && ActiveExam(db) == Some(input.exam)
    ensures var next := RecordAttempt(ResetExam(db, input.person).db, row, now, input).result;
      next == Ok(1) || next == Err(Invalid) || (next == Err(NotFound) && !db.persons[input.person].enabled)
  {
    SittingsDrop(db, input.person, input.exam);
  }

  /** Resetting after a person's only attempt at the active exam restores the database. */
  lemma ResettingUndoesRecording(db: Db, row: int, now: int, input: AttemptInput)
    requires Constraints(db) && row !in db.attempts && ActiveExam(db) == Some(input.exam)
    requires Sittings(db.attempts, input.person, input.exam) == {}
    requires RecordAttempt(db, row, now, input).result.Ok? && db.persons[input.person].passedAt == None
    ensures ResetExam(RecordAttempt(db, row, now, input).db, input.person) == Done(db, ())
  {
    var recorded := RecordAttempt(db, row, now, input).db;
    var next := ResetExam(recorded, input.person).db;
    RecordTouches(db, row, now, input);
    forall a ensures a in next.attempts <==> a in db.attempts {
      assert a in db.attempts ==> a !in Sittings(db.attempts, input.person, input.exam);
    }
    assert next.attempts == db.attempts;
    assert next.passes == db.passes;
    assert next.persons == db.persons;
  }
}
