/** From an upgraded database file to the line that sshd receives: the migration, the gate and
    the policy together. */
module EndToEnd {
  import opened Wrappers
  import opened Identifiers
  import opened Quizzes
  import opened Schema
  import opened Transactions
  import opened Queries
  import opened Commands
  import opened Keys
  import opened Gate
  import opened GateInvariant
  import opened GateTheorems
  import opened GateCounts
  import opened Quoting
  import opened Policy
  import Migration

  // ---------- migration and gate ----------

  /** A migrated database of version 3 or earlier is a starting point of the gate protocol. */
  lemma MigratedStartsTheGate(n: nat, t: Migration.Tables)
    requires n <= 3 && Migration.WrittenBy(n, t)
    ensures Migration.Initialized(t).Ok?
    ensures Fresh(System(Migration.Initialized(t).value.db, map[], map[], {}, map[]))
  {
    Migration.MigratedHasNoExams(n, t);
  }

  /** What version 4 must have kept of its exams: tests that are valid once they get the new
      columns, publications under the hash of their source, and a valid history. */
  ghost predicate ValidExams(o: Oracles, db: Db, carried: set<PassKey>, origins: map<int, Source>) {
    && (forall id :: id in db.tests ==>
          ValidTest(id, db.tests[id].(questionLimit := None, shuffleQuestions := true, shuffleChoices := true)))
    && PublicationsOk(o, db.publications, origins)
    && History(db, carried) && CarriedPublished(db.publications, carried)
  }

  /** Then the fifth script keeps it: a migrated version 4 database with exams is a starting point
      of the gate protocol, too. */
  lemma VersionFourStartsTheGate(
    o: Oracles, t: Migration.Tables, carried: set<PassKey>, origins: map<int, Source>)
    requires Migration.WrittenBy(4, t) && ValidExams(o, t.db, carried, origins)
    ensures Migration.Initialized(t).Ok?
    ensures Upgraded(o, System(Migration.Initialized(t).value.db, map[], map[], carried, origins))
  {
    Migration.FourIsMigrated(t);
    var db := Migration.Initialized(t).value.db;
    SameExamsSameHistory(t.db, db, carried);
  }

  lemma SameExamsSameHistory(db: Db, db': Db, carried: set<PassKey>)
    requires History(db, carried) && db'.attempts == db.attempts && db'.passes == db.passes
    requires db'.publications == db.publications
    ensures History(db', carried)
  {}

  // ---------- keys ----------

  /** Every stored key has the type, blob and fingerprint of an accepted public key. */
  ghost predicate KeysOk(digest: Digest, keys: map<int, Key>) {
    forall k :: k in keys ==> ValidKeyType(keys[k].keyType) && digest(keys[k].blob) == Some(keys[k].fingerprint)
  }

  lemma CommandKeepsKeysOk(digest: Digest, db: Db, c: Command)
    requires KeysOk(digest, db.keys)
    ensures KeysOk(digest, Execute(digest, db, c).keys)
  {}

  lemma StepKeepsKeysOk(o: Oracles, s: System, a: Action)
    requires KeysOk(o.digest, s.db.keys)
    ensures KeysOk(o.digest, Next(o, s, a).db.keys)
  {
    if a.Administer? {
      CommandKeepsKeysOk(o.digest, s.db, a.command);
    } else {
      OtherStepsKeepKeys(o, s, a);
    }
  }

  lemma OtherStepsKeepKeys(o: Oracles, s: System, a: Action)
    requires !a.Administer?
    ensures Next(o, s, a).db.keys == s.db.keys
  {
    SessionsKeepPublications(s, a);
    WorkersKeepKeys(o, s, a);
  }

  lemma WorkersKeepKeys(o: Oracles, s: System, a: Action)
    ensures WorkerStep(o, s, a).db.keys == s.db.keys
  {}

  lemma {:induction false} RunKeepsKeysOk(o: Oracles, s: System, actions: seq<Action>)
    requires KeysOk(o.digest, s.db.keys)
    ensures KeysOk(o.digest, Run(o, s, actions).db.keys)
    decreases |actions|
  {
    if actions != [] {
      StepKeepsKeysOk(o, s, actions[0]);
      RunKeepsKeysOk(o, Next(o, s, actions[0]), actions[1..]);
    }
  }

  // ---------- the decision in every reachable state ----------

  lemma ActiveExamIsWellFormed(o: Oracles, s: System)
    requires Inv(o, s) && HexHash(o.hash) && ActiveExam(s.db).Some?
    ensures ValidBankId(ActiveExam(s.db).value.testId) && ValidRevision(ActiveExam(s.db).value.revision)
  {
    var i := s.db.active.value;
    assert i in s.db.publications && i in s.origins;
    assert s.db.publications[i].exam == Exam(s.origins[i].testId, o.hash(s.origins[i]));
  }

  ghost predicate Printable(config: Config) {
    && !HasControl(config.sudoPath) && !HasControl(config.runAs) && !HasControl(config.tuiPath)
    && !HasControl(config.configPath) && !HasControl(config.language)
  }

  lemma ValuesArePrintable(config: Config, record: PolicyRecord)
    requires Printable(config) && ValidUsername(record.account) && ValidFingerprint(record.fingerprint)
    ensures !AnyControl(config, record)
  {
    assert !HasControl(record.account);
    assert !HasControl(record.fingerprint) by {
      forall c | c in record.fingerprint ensures c as int != 0 && c != '\n' && c != '\r' {
        var i :| 0 <= i < |record.fingerprint| && record.fingerprint[i] == c;
        assert i < 7 ==> c == FINGERPRINT_PREFIX[i];
      }
    }
    var args := ForcedArgs(config, record);
    forall i | 0 <= i < |args| && args[i].Value? ensures !HasControl(args[i].text) {}
  }

  lemma DecisionIsExact(db: Db, digest: Digest, config: Config,
                        account: string, fingerprint: string, keyType: string, blob: string)
    requires Constraints(db) && Printable(config) && ValidUsername(account) && ValidFingerprint(fingerprint)
    requires db.active.Some? ==>
      var exam := db.publications[db.active.value].exam; ValidBankId(exam.testId) && ValidRevision(exam.revision)
    ensures var decision := Evaluate(db, digest, config, account, fingerprint, keyType, blob);
      && decision.Ok?
      && (decision.value.Passed? <==> Allowed(db, digest, account, fingerprint, keyType, blob, true))
      && (decision.value.Pending? <==> Allowed(db, digest, account, fingerprint, keyType, blob, false))
  {
    EvaluateMeans(db, digest, config, account, fingerprint, keyType, blob);
    var found := ResolvePolicy(db, account, fingerprint);
    if found.Ok? && found.value.Some? {
      ValuesArePrintable(config, found.value.value);
      RenderFailsOnControl(config, found.value.value);
    }
  }

  /** In every reachable state the decision is exact: Passed for the registered key of an
      enabled owner with a pass for the active revision, Pending without the pass, and Deny
      otherwise. */
  lemma AccessIsExact(
    o: Oracles, start: System, actions: seq<Action>, s: System, config: Config,
    account: string, fingerprint: string, keyType: string, blob: string)
    requires Reachable(o, start, actions, s) && HexHash(o.hash)
    requires Printable(config) && ValidUsername(account) && ValidFingerprint(fingerprint)
    ensures var decision := Evaluate(s.db, o.digest, config, account, fingerprint, keyType, blob);
      && decision.Ok?
      && (decision.value.Passed? <==> Allowed(s.db, o.digest, account, fingerprint, keyType, blob, true))
      && (decision.value.Pending? <==> Allowed(s.db, o.digest, account, fingerprint, keyType, blob, false))
  {
    ReachableIsInv(o, start, actions, s);
    if ActiveExam(s.db).Some? {
      ActiveExamIsWellFormed(o, s);
    }
    DecisionIsExact(s.db, o.digest, config, account, fingerprint, keyType, blob);
  }

  /** A pending user who completes the active exam, with the attempt accepted: at the next login
      with the same key the decision is Passed if the marks reach the threshold of the stored quiz,
      and Pending again if not. */
  lemma FinalEnterDecidesLogin(
    o: Oracles, start: System, actions: seq<Action>, s: System, a: Action, config: Config,
    account: string, fingerprint: string, keyType: string, blob: string)
    requires Reachable(o, start, actions, s) && HexHash(o.hash) && Printable(config)
    requires ValidUsername(account) && ValidFingerprint(fingerprint)
    requires var decision := Evaluate(s.db, o.digest, config, account, fingerprint, keyType, blob);
      decision.Ok? && decision.value.Pending?
    requires ActiveExam(s.db).Some?
      && Accepts(s, a, ResolvePolicy(s.db, account, fingerprint).value.value.person, ActiveExam(s.db).value)
    ensures var app := s.sessions[a.sid].app;
      var answers := app.answers + [app.selected];
      var decision := Evaluate(Next(o, s, a).db, o.digest, config, account, fingerprint, keyType, blob);
      && |answers| == |app.quiz.questions| && decision.Ok?
      && if Marks(answers, app.quiz.questions) * 100
            >= s.db.publications[s.db.active.value].quiz.threshold * |answers|
         then decision.value.Passed? else decision.value.Pending?
  {
    ReachableIsInv(o, start, actions, s);
    var before := ResolvePolicy(s.db, account, fingerprint).value.value;
    FinalEnterDecidesVerdict(o, s, a, before.person, account, fingerprint);
    SameRecordSameLine(s.db, Next(o, s, a).db, o.digest, config, account, fingerprint, keyType, blob);
  }

  /** A pending decision on the same record, up to the pass. */
  lemma SameRecordSameLine(db: Db, db': Db, digest: Digest, config: Config,
                           account: string, fingerprint: string, keyType: string, blob: string)
    requires var decision := Evaluate(db, digest, config, account, fingerprint, keyType, blob);
      decision.Ok? && decision.value.Pending?
    requires var found := ResolvePolicy(db', account, fingerprint);
      && found.Ok? && found.value.Some?
      && found.value.value.(passed := false) == ResolvePolicy(db, account, fingerprint).value.value
    ensures var decision := Evaluate(db', digest, config, account, fingerprint, keyType, blob);
      decision.Ok? && if ResolvePolicy(db', account, fingerprint).value.value.passed
                      then decision.value.Passed? else decision.value.Pending?
  {}

  lemma ForcedTexts(config: Config, record: PolicyRecord)
    ensures Texts(ForcedArgs(config, record))
            == [config.sudoPath, "-n", "-u", config.runAs, "--", config.tuiPath, "--config", config.configPath,
                "--username", record.account, "--fingerprint", record.fingerprint, "--language", config.language]
  {}

  /** What sshd and the shell read from the line of one pending record. */
  lemma RecordLineIsRead(digest: Digest, config: Config, record: PolicyRecord)
    requires GoodDigest(digest) && Printable(config) && !record.passed
    requires ValidKeyType(record.keyType) && digest(record.blob) == Some(record.fingerprint)
    requires ValidUsername(record.account) && ValidFingerprint(record.fingerprint)
    ensures RenderRecord(config, record).Ok? && RenderRecord(config, record).value.Pending?
    ensures var read := KeyLine(RenderRecord(config, record).value.line, QuoteOnly);
      && read.Some? && |read.value.0| == 3 && read.value.0[2].Setting?
      && Forces(read.value.0, read.value.0[2].value)
      && Parse(digest, read.value.1)
         == Some(PublicKey(record.keyType, record.blob, Some(KEY_COMMENT), record.fingerprint))
      && (NoBackslashes(config) ==> ShellWords(read.value.0[2].value) == Some(Texts(ForcedArgs(config, record))))
  {
    ValuesArePrintable(config, record);
    PendingLineDecodes(digest, config, record, QuoteOnly);
    if NoBackslashes(config) {
      NoBackslashAnywhere(config, record);
    }
  }

  /** In every reachable state a pending user's line makes sshd run exactly the intended exam
      command for this account and key, if no configured value holds a backslash, and accepts
      exactly the registered key. */
  lemma PendingUsersGetTheirExam(
    o: Oracles, start: System, actions: seq<Action>, s: System, config: Config,
    account: string, fingerprint: string, keyType: string, blob: string, line: string)
    requires Reachable(o, start, actions, s) && GoodDigest(o.digest) && KeysOk(o.digest, start.db.keys)
    requires Printable(config)
    requires Evaluate(s.db, o.digest, config, account, fingerprint, keyType, blob) == Ok(Pending(line))
    ensures var read := KeyLine(line, QuoteOnly);
      && read.Some? && |read.value.0| == 3 && read.value.0[2].Setting?
      && Forces(read.value.0, read.value.0[2].value)
      && Parse(o.digest, read.value.1) == Some(PublicKey(keyType, blob, Some(KEY_COMMENT), fingerprint))
      && (NoBackslashes(config) ==>
            ShellWords(read.value.0[2].value) == Some([config.sudoPath, "-n", "-u", config.runAs, "--", config.tuiPath,
              "--config", config.configPath, "--username", account, "--fingerprint", fingerprint,
              "--language", config.language]))
  {
    var record := ResolvePolicy(s.db, account, fingerprint).value.value;
    RunKeepsKeysOk(o, start, actions);
    ResolvedKeyIsOk(o.digest, s.db, account, fingerprint);
    RecordLineIsRead(o.digest, config, record);
    ForcedTexts(config, record);
  }

  ghost predicate NoBackslashes(config: Config) {
    && '\\' !in config.sudoPath && '\\' !in config.runAs && '\\' !in config.tuiPath
    && '\\' !in config.configPath && '\\' !in config.language
  }

  lemma ResolvedKeyIsOk(digest: Digest, db: Db, account: string, fingerprint: string)
    requires KeysOk(digest, db.keys)
    requires ResolvePolicy(db, account, fingerprint).Ok? && ResolvePolicy(db, account, fingerprint).value.Some?
    ensures var record := ResolvePolicy(db, account, fingerprint).value.value;
      && ValidKeyType(record.keyType) && digest(record.blob) == Some(record.fingerprint)
      && record.account == account && record.fingerprint == fingerprint
      && ValidUsername(account) && ValidFingerprint(fingerprint)
  {}

  lemma NoBackslashAnywhere(config: Config, record: PolicyRecord)
    requires NoBackslashes(config) && ValidUsername(record.account) && ValidFingerprint(record.fingerprint)
    ensures var args := ForcedArgs(config, record); forall i :: 0 <= i < |args| ==> '\\' !in args[i].text
  {
    assert '\\' !in record.account;
    assert '\\' !in record.fingerprint by {
      forall i | 0 <= i < |record.fingerprint| ensures record.fingerprint[i] != '\\' {
        assert i < 7 ==> record.fingerprint[i] == FINGERPRINT_PREFIX[i];
      }
    }
    var args := ForcedArgs(config, record);
    FixedArgsAreOptionWords(config, record);
    forall i | 0 <= i < |args| ensures '\\' !in args[i].text {}
  }
}
