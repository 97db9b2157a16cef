/** The access decision and the line printed for it (src/policy.rs). */
module Policy {
  import opened Wrappers
  import opened Sets
  import opened Text
  import opened Identifiers
  import opened Schema
  import opened Transactions
  import opened Queries
  import opened Keys
  import opened Quoting

  datatype Config = Config(sudoPath: string, runAs: string, tuiPath: string, configPath: string, language: string)

  datatype Decision = Deny | Pending(line: string) | Passed(line: string)

  datatype PolicyError = ControlCharacter | Gate(error: GateError)

  /** The forced command as its arguments. */
  function ForcedArgs(config: Config, record: PolicyRecord): seq<Arg> {
    [Value(config.sudoPath), Fixed("-n"), Fixed("-u"), Value(config.runAs), Fixed("--"),
     Value(config.tuiPath), Fixed("--config"), Value(config.configPath),
     Fixed("--username"), Value(record.account), Fixed("--fingerprint"), Value(record.fingerprint),
     Fixed("--language"), Value(config.language)]
  }

  predicate AnyControl(config: Config, record: PolicyRecord) {
    exists i :: 0 <= i < |ForcedArgs(config, record)|
                && ForcedArgs(config, record)[i].Value? && HasControl(ForcedArgs(config, record)[i].text)
  }

  /** `render_record`: every value is shell-quoted, the command is quoted again as an option
      value, and a control character in any value is an error. */
  function RenderRecord(config: Config, record: PolicyRecord): Result<Decision, PolicyError> {
    var key := AuthorizedKey(record.keyType, record.blob);
    if record.passed then Ok(Passed(key))
    else if AnyControl(config, record) then Err(ControlCharacter)
    else
      var command := PrintedCommand(ForcedArgs(config, record));
      var option := AuthorizedOption(command);
      if option.None? then Err(ControlCharacter)
      else Ok(Pending(OPTIONS_PREFIX + option.value + " " + key))
  }

  /** `evaluate`: what sshd supplies must be consistent, resolve to a record, and equal the
      registered key. */
  ghost function Evaluate(db: Db, digest: Digest, config: Config, account: string,
                          fingerprint: string, keyType: string, blob: string): Result<Decision, PolicyError> {
    if !ValidFingerprint(fingerprint) || !ValidKeyType(keyType) || Fingerprint(digest, blob) != Some(fingerprint)
    then Ok(Deny)
    else
      match ResolvePolicy(db, account, fingerprint)
      case Err(e) => Err(Gate(e))
      case Ok(None) => Ok(Deny)
      case Ok(Some(record)) =>
        if record.fingerprint != fingerprint || record.keyType != keyType || record.blob != blob then Ok(Deny)
        else RenderRecord(config, record)
  }

  /** Read off the tables: the key with this fingerprint, type and blob is enabled, and so is its
      owner, who has this account. */
  ghost predicate Registered(db: Db, k: int, account: string, fingerprint: string, keyType: string, blob: string) {
    && k in db.keys && db.keys[k].enabled
    && db.keys[k].fingerprint == fingerprint && db.keys[k].keyType == keyType && db.keys[k].blob == blob
    && var owner := db.keys[k].person;
    && owner in db.persons && db.persons[owner].enabled && db.persons[owner].account == Some(account)
  }

  ghost predicate Allowed(db: Db, digest: Digest, account: string, fingerprint: string, keyType: string, blob: string,
                          passed: bool) {
    && ValidKeyType(keyType) && Fingerprint(digest, blob) == Some(fingerprint)
    && db.active.Some? && db.active.value in db.publications
    && exists k :: Registered(db, k, account, fingerprint, keyType, blob)
                   && (PassKey(db.keys[k].person, db.publications[db.active.value].exam) in db.passes <==> passed)
  }

  /** The decision is Passed exactly if person and key are enabled, account, type, blob and
      fingerprint all match, and a pass exists for the active revision; it is Pending, or an
      unprintable value, exactly under the same conditions without that pass; otherwise access
      is denied. */
  lemma EvaluateMeans(db: Db, digest: Digest, config: Config, account: string,
                      fingerprint: string, keyType: string, blob: string)
    requires Constraints(db) && ValidUsername(account) && ValidFingerprint(fingerprint)
    requires db.active.Some? ==>
      var exam := db.publications[db.active.value].exam; ValidBankId(exam.testId) && ValidRevision(exam.revision)
    ensures var decision := Evaluate(db, digest, config, account, fingerprint, keyType, blob);
      && (Allowed(db, digest, account, fingerprint, keyType, blob, true) <==>
            decision.Ok? && decision.value.Passed?)
      && (Allowed(db, digest, account, fingerprint, keyType, blob, false) <==>
            decision.Err? || decision.value.Pending?)
      && (decision.Ok? && decision.value.Passed? ==> decision.value.line == AuthorizedKey(keyType, blob))
  {
    PolicyMeans(db, account, fingerprint);
    forall k | Registered(db, k, account, fingerprint, keyType, blob) ensures Opens(db, k, account, fingerprint) {}
    forall k, l | Opens(db, k, account, fingerprint) && Opens(db, l, account, fingerprint) ensures k == l {}
    if k :| Opens(db, k, account, fingerprint) {
      assert Registered(db, k, account, fingerprint, keyType, blob)
             <==> db.keys[k].keyType == keyType && db.keys[k].blob == blob;
    }
  }

  /** Consistent input is refused with an error exactly for a malformed account, or when a key opens
      the account but a stored id or revision is malformed. */
  lemma EvaluateErrs(db: Db, digest: Digest, config: Config, account: string,
                     fingerprint: string, keyType: string, blob: string)
    requires References(db)
    ensures Evaluate(db, digest, config, account, fingerprint, keyType, blob) == Err(Gate(Invalid)) <==>
      && ValidFingerprint(fingerprint) && ValidKeyType(keyType) && Fingerprint(digest, blob) == Some(fingerprint)
      && (|| !ValidUsername(account)
          || (&& db.active.Some? && (exists k :: Opens(db, k, account, fingerprint))
              && var exam := db.publications[db.active.value].exam;
              !ValidBankId(exam.testId) || !ValidRevision(exam.revision)))
  {
    forall k ensures k in PolicyRows(db, account, fingerprint) <==> Opens(db, k, account, fingerprint) {}
    var rows := PolicyRows(db, account, fingerprint);
    if k :| Opens(db, k, account, fingerprint) {
      assert rows != {};
    }
    if rows != {} {
      assert Opens(db, Least(rows), account, fingerprint);
    }
  }

  predicate IsOptionWord(s: string) {
    s != "" && forall i :: 0 <= i < |s| ==> 'a' <= s[i] <= 'z' || s[i] == '-'
  }

  lemma OptionWordIsLiteral(s: string)
    requires IsOptionWord(s)
    ensures IsLiteral(s) && !HasControl(s)
  {}

  lemma FixedArgsAreOptionWords(config: Config, record: PolicyRecord)
    ensures var args := ForcedArgs(config, record);
            forall i :: 0 <= i < |args| && args[i].Fixed? ==> IsOptionWord(args[i].text)
  {
    assert IsOptionWord("-n") && IsOptionWord("-u") && IsOptionWord("--");
    assert IsOptionWord("--config") && IsOptionWord("--username");
    assert IsOptionWord("--fingerprint") && IsOptionWord("--language");
  }

  lemma ForcedArgsAreLiteral(config: Config, record: PolicyRecord)
    ensures FixedAreLiteral(ForcedArgs(config, record))
  {
    var args := ForcedArgs(config, record);
    FixedArgsAreOptionWords(config, record);
    forall i | 0 <= i < |args| && args[i].Fixed? ensures IsLiteral(args[i].text) {
      OptionWordIsLiteral(args[i].text);
    }
  }

  lemma {:induction false} QuotingAddsNoControl(s: string)
    requires !HasControl(s)
    ensures !HasControl(Replace(s, '\'', QUOTE_IN_QUOTES))
  {
    if s != "" {
      assert forall c :: c in s[1..] ==> c in s;
      QuotingAddsNoControl(s[1..]);
      assert s[0] in s;
      var head := if s[0] == '\'' then QUOTE_IN_QUOTES else [s[0]];
      forall c | c in Replace(s, '\'', QUOTE_IN_QUOTES)
        ensures c as int != 0 && c != '\n' && c != '\r'
      {
        assert c in head || c in Replace(s[1..], '\'', QUOTE_IN_QUOTES);
      }
    }
  }

  lemma ArgumentHasNoControl(arg: Arg)
    requires if arg.Fixed? then IsLiteral(arg.text) && !HasControl(arg.text) else !HasControl(arg.text)
    ensures !HasControl(Printed(arg)) && Printed(arg) != ""
  {
    if arg.Value? {
      QuotingAddsNoControl(arg.text);
    }
  }

  lemma {:induction false} CommandHasNoControl(args: seq<Arg>)
    requires args != [] && FixedAreLiteral(args)
    requires forall i :: 0 <= i < |args| ==> !HasControl(args[i].text)
    ensures !HasControl(PrintedCommand(args))
  {
    ArgumentHasNoControl(args[0]);
    if |args| == 1 {
      assert PrintedCommand(args) == Printed(args[0]);
    } else {
      PrintedCommandStep(args);
      CommandHasNoControl(args[1..]);
    }
  }

  lemma {:induction false} LastArgumentEnds(args: seq<Arg>)
    requires args != [] && args[|args| - 1].Value?
    ensures PrintedCommand(args) != "" && !EndsInBackslash(PrintedCommand(args))
  {
    if |args| == 1 {
      assert PrintedCommand(args) == Printed(args[0]);
    } else {
      PrintedCommandStep(args);
      LastArgumentEnds(args[1..]);
    }
  }

  lemma FixedArgsHaveNoControl(config: Config, record: PolicyRecord)
    requires !AnyControl(config, record)
    ensures forall i :: 0 <= i < |ForcedArgs(config, record)| ==> !HasControl(ForcedArgs(config, record)[i].text)
  {
    var args := ForcedArgs(config, record);
    FixedArgsAreOptionWords(config, record);
    forall i | 0 <= i < |args| ensures !HasControl(args[i].text) {
      if args[i].Fixed? {
        OptionWordIsLiteral(args[i].text);
      }
    }
  }

  /** Rendering a pending record fails exactly when a value holds NUL, CR or LF. */
  lemma RenderFailsOnControl(config: Config, record: PolicyRecord)
    ensures RenderRecord(config, record).Err? <==> !record.passed && AnyControl(config, record)
  {
    if !record.passed && !AnyControl(config, record) {
      ForcedArgsAreLiteral(config, record);
      FixedArgsHaveNoControl(config, record);
      CommandHasNoControl(ForcedArgs(config, record));
    }
  }

  /** The printed pending line, read back. With a reader that undoes both escapes the shell
      receives exactly the intended arguments; with sshd it receives them with every backslash
      doubled, so exactly the intended ones if and only if no argument holds a backslash. In both
      cases the rest of the line is the registered key, and parsing it gives the registered type,
      blob and fingerprint. */
  lemma PendingLineDecodes(digest: Digest, config: Config, record: PolicyRecord, rule: EscapeRule)
    requires GoodDigest(digest) && !record.passed && !AnyControl(config, record)
    requires ValidKeyType(record.keyType) && digest(record.blob) == Some(record.fingerprint)
    ensures var args, rendered := ForcedArgs(config, record), RenderRecord(config, record);
      && rendered.Ok? && rendered.value.Pending?
      && var read := KeyLine(rendered.value.line, rule);
      && read.Some? && |read.value.0| == 3 && read.value.0[2].Setting?
      && var command := read.value.0[2].value;
      && Forces(read.value.0, command)
      && ShellWords(command) == Some(Texts(if rule == Symmetric then args else Doubled(args)))
      && (ShellWords(command) == Some(Texts(args)) <==>
            rule == Symmetric || forall i :: 0 <= i < |args| ==> '\\' !in args[i].text)
      && Parse(digest, read.value.1)
         == Some(PublicKey(record.keyType, record.blob, Some(KEY_COMMENT), record.fingerprint))
  {
    var args := ForcedArgs(config, record);
    var command, key := PrintedCommand(args), AuthorizedKey(record.keyType, record.blob);
    RenderFailsOnControl(config, record);
    assert RenderRecord(config, record).value.line == PendingLine(command, key);
    ForcedArgsAreLiteral(config, record);
    LastArgumentEnds(args);
    PendingLineIsRead(command, key, rule);
    CommandIsRead(args);
    SshdCommandIsRead(args);
    ParseOfAuthorizedKey(digest, record.keyType, record.blob);
  }

  lemma DoubledOnce(before: string, after: string)
    requires '\\' !in before && '\\' !in after
    ensures DoubledBackslashes(before + ['\\'] + after) == before + ['\\', '\\'] + after
  {
    calc {
      DoubledBackslashes(before + ['\\'] + after);
      { ReplaceOfConcat(before + ['\\'], after, '\\', "\\\\"); NoChange(after, '\\', "\\\\"); }
      DoubledBackslashes(before + ['\\']) + after;
      { ReplaceOfConcat(before, ['\\'], '\\', "\\\\"); NoChange(before, '\\', "\\\\"); }
      before + DoubledBackslashes(['\\']) + after;
      { assert ['\\'][1..] == []; }
      before + ['\\', '\\'] + after;
    }
  }

  /** Where sshd and the printer disagree: with one backslash in the path of sudo, as in
      `/opt\sudo`, sshd lets the shell run the path with two. */
  lemma SshdKeepsDoubledBackslash(
    digest: Digest, config: Config, record: PolicyRecord, before: string, after: string)
    requires GoodDigest(digest) && !record.passed && !AnyControl(config, record)
    requires ValidKeyType(record.keyType) && digest(record.blob) == Some(record.fingerprint)
    requires '\\' !in before && '\\' !in after && config.sudoPath == before + ['\\'] + after
    ensures RenderRecord(config, record).Ok? && RenderRecord(config, record).value.Pending?
    ensures var read := KeyLine(RenderRecord(config, record).value.line, QuoteOnly);
      && read.Some? && |read.value.0| == 3 && read.value.0[2].Setting?
      && Forces(read.value.0, read.value.0[2].value) && ShellWords(read.value.0[2].value).Some?
      && var words := ShellWords(read.value.0[2].value).value;
      && words != [] && words[0] == before + ['\\', '\\'] + after
  {
    PendingLineDecodes(digest, config, record, QuoteOnly);
    DoubledOnce(before, after);
    var args := ForcedArgs(config, record);
    assert Texts(Doubled(args))[0] == DoubledBackslashes(args[0].text);
  }
}
