/** Where recorded attempts come from: the login and the opening behind each of them
    (src/bin/ssh-exam-tui.rs). */
module GateOrigins {
  import opened Wrappers
  import opened Schema
  import opened Transactions
  import opened Queries
  import opened Gate
  import opened GateTheorems

  /** The state before step `n` of a run. */
  ghost function StateAt(o: Oracles, start: System, actions: seq<Action>, n: nat): System
    requires n <= |actions|
  {
    Run(o, start, actions[..n])
  }

  lemma {:induction false} RunOneMore(o: Oracles, s: System, actions: seq<Action>, a: Action)
    ensures Run(o, s, actions + [a]) == Next(o, Run(o, s, actions), a)
    decreases |actions|
  {
    if actions == [] {
      assert actions + [a] == [a] && [a][1..] == [];
      assert Run(o, Next(o, s, a), [a][1..]) == Next(o, s, a);
    } else {
      assert (actions + [a])[0] == actions[0] && (actions + [a])[1..] == actions[1..] + [a];
      RunOneMore(o, Next(o, s, actions[0]), actions[1..], a);
    }
  }

  lemma StateAfter(o: Oracles, start: System, actions: seq<Action>, n: nat)
    requires n < |actions|
    ensures StateAt(o, start, actions, n + 1) == Next(o, StateAt(o, start, actions, n), actions[n])
  {
    assert actions[..n + 1] == actions[..n] + [actions[n]];
    RunOneMore(o, start, actions[..n], actions[n]);
  }

  // ---------- the way of a session ----------

  /** The policy lookup of an account and a key names this person and the active exam. */
  ghost predicate Grants(db: Db, account: string, fingerprint: string, person: int, exam: Exam) {
    var policy := ResolvePolicy(db, account, fingerprint);
    policy.Ok? && policy.value.Some? && policy.value.value.person == person && policy.value.value.exam == exam
  }

  /** Step `h` opens the session for this account and key. */
  ghost predicate ConnectsAt(
    o: Oracles, start: System, actions: seq<Action>, sid: int, h: nat, account: string, fingerprint: string)
    requires h < |actions|
  {
    actions[h] == Connect(sid, account, fingerprint) && sid !in StateAt(o, start, actions, h).sessions
  }

  ghost predicate Connected(
    o: Oracles, start: System, actions: seq<Action>, n: nat, sid: int, account: string, fingerprint: string)
    requires n <= |actions|
  {
    exists h: nat :: h < n && ConnectsAt(o, start, actions, sid, h, account, fingerprint)
  }

  /** Step `j` resolves the session's account and key to this person and exam. */
  ghost predicate ResolvesAt(
    o: Oracles, start: System, actions: seq<Action>, sid: int, j: nat, person: int, exam: Exam)
    requires j < |actions|
  {
    exists account, fingerprint ::
      && Connected(o, start, actions, j, sid, account, fingerprint)
      && actions[j] == Resolve(sid)
      && Grants(StateAt(o, start, actions, j).db, account, fingerprint, person, exam)
  }

  ghost predicate LoggedIn(
    o: Oracles, start: System, actions: seq<Action>, n: nat, sid: int, person: int, exam: Exam)
    requires n <= |actions|
  {
    exists j: nat :: j < n && ResolvesAt(o, start, actions, sid, j, person, exam)
  }

  /** Step `l` opens the exam, which is then the active one. */
  ghost predicate OpensAt(
    o: Oracles, start: System, actions: seq<Action>, sid: int, l: nat, person: int, exam: Exam)
    requires l < |actions|
  {
    && LoggedIn(o, start, actions, l, sid, person, exam)
    && actions[l].Open? && actions[l].sid == sid
    && ActiveExam(StateAt(o, start, actions, l).db) == Some(exam)
  }

  ghost predicate OpenedExam(
    o: Oracles, start: System, actions: seq<Action>, n: nat, sid: int, person: int, exam: Exam)
    requires n <= |actions|
  {
    exists l: nat :: l < n && OpensAt(o, start, actions, sid, l, person, exam)
  }

  ghost predicate Traced(
    o: Oracles, start: System, actions: seq<Action>, n: nat, sid: int, session: Session)
    requires n <= |actions|
  {
    match session
    case Connecting(account, fingerprint) => Connected(o, start, actions, n, sid, account, fingerprint)
    case Resolved(policy) => LoggedIn(o, start, actions, n, sid, policy.person, policy.exam)
    case Identified(identity) => LoggedIn(o, start, actions, n, sid, identity.person, identity.exam)
    case Sitting(identity, _) => OpenedExam(o, start, actions, n, sid, identity.person, identity.exam)
    case Closed => true
  }

  /** What one step can make of a session. */
  ghost predicate Becomes(s: System, a: Action, sid: int, before: Session, after: Session) {
    || after == before
    || after.Closed?
    || (before.Connecting? && after.Resolved? && a == Resolve(sid)
        && Grants(s.db, before.account, before.fingerprint, after.policy.person, after.policy.exam))
    || (before.Resolved? && after.Identified?
        && after.identity.person == before.policy.person && after.identity.exam == before.policy.exam)
    || (before.Identified? && after.Sitting? && a.Open? && a.sid == sid && after.identity == before.identity
        && ActiveExam(s.db) == Some(after.identity.exam))
    || (before.Sitting? && after.Sitting? && after.identity == before.identity)
  }

  lemma SessionBecomes(s: System, a: Action, sid: int)
    requires sid in s.sessions
    ensures sid in SessionStep(s, a).sessions
    ensures Becomes(s, a, sid, s.sessions[sid], SessionStep(s, a).sessions[sid])
  {
    if a.Input? && a.sid in s.sessions && s.sessions[a.sid].Sitting? {
      InputStepEffect(s, a.sid, a.event, a.row, a.now);
    }
  }

  lemma SessionAppears(s: System, a: Action, sid: int)
    requires sid !in s.sessions && sid in SessionStep(s, a).sessions
    ensures a.Connect? && a.sid == sid
    ensures SessionStep(s, a).sessions[sid] == Connecting(a.account, a.fingerprint)
  {}

  lemma OthersKeepSessions(o: Oracles, s: System, a: Action)
    ensures Next(o, s, a) == SessionStep(s, a) || Next(o, s, a).sessions == s.sessions
  {
    WorkerStepEffect(o, s, a);
  }

  lemma TraceGoesOn(
    o: Oracles, start: System, actions: seq<Action>, n: nat, sid: int, before: Session, after: Session)
    requires n < |actions| && Traced(o, start, actions, n, sid, before)
    requires Becomes(StateAt(o, start, actions, n), actions[n], sid, before, after)
    ensures Traced(o, start, actions, n + 1, sid, after)
  {
    if before.Connecting? && after.Resolved? {
      assert ResolvesAt(o, start, actions, sid, n, after.policy.person, after.policy.exam);
    } else if before.Identified? && after.Sitting? {
      assert OpensAt(o, start, actions, sid, n, after.identity.person, after.identity.exam);
    }
  }

  lemma StepIsTraced(o: Oracles, start: System, actions: seq<Action>, n: nat, sid: int)
    requires n < |actions| && sid in Next(o, StateAt(o, start, actions, n), actions[n]).sessions
    requires sid in StateAt(o, start, actions, n).sessions ==>
      Traced(o, start, actions, n, sid, StateAt(o, start, actions, n).sessions[sid])
    ensures Traced(o, start, actions, n + 1, sid, Next(o, StateAt(o, start, actions, n), actions[n]).sessions[sid])
  {
    var s, a := StateAt(o, start, actions, n), actions[n];
    OthersKeepSessions(o, s, a);
    if sid in s.sessions {
      SessionBecomes(s, a, sid);
      TraceGoesOn(o, start, actions, n, sid, s.sessions[sid], Next(o, s, a).sessions[sid]);
    } else {
      SessionAppears(s, a, sid);
      assert ConnectsAt(o, start, actions, sid, n, a.account, a.fingerprint);
    }
  }

  lemma {:induction false} SessionsAreTraced(
    o: Oracles, start: System, actions: seq<Action>, n: nat, sid: int)
    requires start.sessions == map[] && n <= |actions| && sid in StateAt(o, start, actions, n).sessions
    ensures Traced(o, start, actions, n, sid, StateAt(o, start, actions, n).sessions[sid])
  {
    if n > 0 {
      StateAfter(o, start, actions, n - 1);
      if sid in StateAt(o, start, actions, n - 1).sessions {
        SessionsAreTraced(o, start, actions, n - 1, sid);
      }
      StepIsTraced(o, start, actions, n - 1, sid);
    }
  }

  lemma RecordedAttemptIs(o: Oracles, s: System, a: Action, sid: int)
    requires Records(o, s, a, sid)
    ensures sid in s.sessions && s.sessions[sid].Sitting? && a.row in Next(o, s, a).db.attempts
    ensures var attempt, identity := Next(o, s, a).db.attempts[a.row], s.sessions[sid].identity;
            attempt.person == identity.person && attempt.exam == Some(identity.exam)
  {}

  /** Every recorded attempt goes back to a login and an opening of its session: the account and
      key with which the session connected resolved, at an earlier step, to the attempt's person
      and exam, and later that exam was the active one when the session opened it. */
  lemma AttemptsComeFromLogins(o: Oracles, start: System, actions: seq<Action>, n: nat, sid: int)
    requires Fresh(start) || Upgraded(o, start)
    requires n < |actions| && Records(o, StateAt(o, start, actions, n), actions[n], sid)
    ensures actions[n].row in StateAt(o, start, actions, n + 1).db.attempts
    ensures var attempt := StateAt(o, start, actions, n + 1).db.attempts[actions[n].row];
      attempt.exam.Some? && OpenedExam(o, start, actions, n, sid, attempt.person, attempt.exam.value)
  {
    StateAfter(o, start, actions, n);
    RecordedAttemptIs(o, StateAt(o, start, actions, n), actions[n], sid);
    SessionsAreTraced(o, start, actions, n, sid);
  }
}
