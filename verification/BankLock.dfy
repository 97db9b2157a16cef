/** The lock shared by the web handlers that touch question banks and saved tests
    (src/web.rs). Handlers interleave step by step; deleting a test takes no lock. */
module BankLock {
  import opened Wrappers
  import opened Text
  import opened Identifiers
  import opened Quizzes
  import opened Schema
  import opened Transactions
  import opened Banks

  datatype Request =
    | SaveTest(existing: Option<string>, testId: string, test: Test)
    | PublishTest(testId: string)
    | DropBank(bankId: string)
    | ImportBank(bankId: string, quiz: Quiz)
    | EditBank(bankId: string, edit: Edit)

  datatype Outcome = Succeeded | Refused | BankMissing

  /** What a handler has done so far. `Checked` has composed the test it will save, or has seen
      that no test uses the bank it will delete; `Fetched` has read the test it will publish. */
  datatype Handler =
    | Waiting(request: Request)
    | Holding(request: Request)
    | Checked(request: Request)
    | Fetched(testId: string, test: Test)
    | Finished(request: Request, outcome: Outcome)

  datatype System = System(
    catalog: Catalog, tests: map<string, Test>, lock: Option<int>, handlers: map<int, Handler>)

  datatype Action =
    | Arrive(h: int, request: Request)
    | Acquire(h: int)
    | Proceed(h: int)
    | DeleteSavedTest(testId: string)

  ghost predicate AllLoad(catalog: Catalog, ids: seq<string>) {
    forall id :: id in ids ==> Loadable(catalog, id)
  }

  function OptionsOf(test: Test): Options {
    Options(test.threshold, test.maxAttempts, test.questionLimit, test.shuffleQuestions, test.shuffleChoices)
  }

  /** Whatever a stored test composes to, publishing it does not refuse it: the composition has the
      title and all settings of the test. */
  lemma CompositionIsPublishable(db: Db, catalog: Catalog, testId: string)
    requires TestsOk(db) && testId in db.tests
    requires var test := db.tests[testId]; Composable(catalog, test.title, test.bankIds, OptionsOf(test))
    ensures var test := db.tests[testId];
      && Present(catalog, test.bankIds)
      && var quiz := Composition(catalog, test.title, test.bankIds, OptionsOf(test));
      && Matches(quiz, test) && ReadSource(db, testId, quiz) == Ok(Source(testId, test.bankIds, quiz))
  {
    var test := db.tests[testId];
    QuestionsAreValid(catalog, test.bankIds);
    assert Valid(Composition(catalog, test.title, test.bankIds, OptionsOf(test)));
  }

  /** How composing a test ends for the handler. */
  ghost function Composing(catalog: Catalog, test: Test): Outcome {
    if !AllLoad(catalog, test.bankIds) then BankMissing
    else if Composable(catalog, test.title, test.bankIds, OptionsOf(test)) then Succeeded
    else Refused
  }

  predicate Uses(tests: map<string, Test>, bankId: string) {
    exists t :: t in tests && bankId in tests[t].bankIds
  }

  ghost function With(s: System, h: int, handler: Handler): System {
    s.(handlers := s.handlers[h := handler])
  }

  /** The handler ends and releases the lock. */
  ghost function End(s: System, h: int, request: Request, outcome: Outcome): System {
    With(s, h, Finished(request, outcome)).(lock := None)
  }

  /** A new test must not exist yet; an edited one must, and keeps its id. */
  predicate CanStore(tests: map<string, Test>, existing: Option<string>, testId: string) {
    match existing
    case None => testId !in tests
    case Some(id) => id == testId && id in tests
  }

  ghost function SaveStep(s: System, h: int, r: Request): System
    requires r.SaveTest?
  {
    if !ValidTest(r.testId, r.test) || !CanStore(s.tests, r.existing, r.testId) then End(s, h, r, Refused)
    else End(s, h, r, Succeeded).(tests := s.tests[r.testId := r.test.(title := Trim(r.test.title))])
  }

  /** One step of a handler that holds the lock. */
  ghost function ProceedStep(s: System, h: int): System
    requires h in s.handlers
  {
    match s.handlers[h]
    case Holding(SaveTest(_, _, test)) =>
      (match Composing(s.catalog, test)
       case Succeeded => With(s, h, Checked(s.handlers[h].request))
       case outcome => End(s, h, s.handlers[h].request, outcome))
    case Holding(PublishTest(testId)) =>
      if testId in s.tests then With(s, h, Fetched(testId, s.tests[testId]))
      else End(s, h, s.handlers[h].request, Refused)
    case Holding(DropBank(bankId)) =>
      if Uses(s.tests, bankId) then End(s, h, s.handlers[h].request, Refused)
      else With(s, h, Checked(s.handlers[h].request))
    case Holding(ImportBank(bankId, quiz)) =>
      if !Valid(quiz) || !ValidBankId(bankId) || bankId == LEGACY_BANK_ID || bankId in s.catalog
      then End(s, h, s.handlers[h].request, Refused)
      else End(s, h, s.handlers[h].request, Succeeded).(catalog := s.catalog[bankId := quiz])
    case Holding(EditBank(bankId, edit)) =>
      if bankId !in s.catalog || Stored(s.catalog[bankId], edit).None?
      then End(s, h, s.handlers[h].request, Refused)
      else
        End(s, h, s.handlers[h].request, Succeeded)
          .(catalog := s.catalog[bankId := Stored(s.catalog[bankId], edit).value])
    case Checked(SaveTest(_, _, test)) => SaveStep(s, h, s.handlers[h].request)
    case Checked(DropBank(bankId)) =>
      if !ValidBankId(bankId) || bankId == LEGACY_BANK_ID || bankId !in s.catalog
      then End(s, h, s.handlers[h].request, Refused)
      else End(s, h, s.handlers[h].request, Succeeded).(catalog := s.catalog - {bankId})
    case Fetched(testId, test) => End(s, h, PublishTest(testId), Composing(s.catalog, test))
    case _ => s
  }

  ghost function Next(s: System, a: Action): System {
    match a
    case Arrive(h, request) => if h in s.handlers then s else With(s, h, Waiting(request))
    case Acquire(h) =>
      if s.lock == None && h in s.handlers && s.handlers[h].Waiting?
      then With(s, h, Holding(s.handlers[h].request)).(lock := Some(h)) else s
    case Proceed(h) => if h in s.handlers && s.lock == Some(h) then ProceedStep(s, h) else s
    case DeleteSavedTest(testId) => s.(tests := s.tests - {testId})
  }

  ghost function Run(s: System, actions: seq<Action>): System
    decreases |actions|
  {
    if actions == [] then s else Run(Next(s, actions[0]), actions[1..])
  }

  ghost predicate Start(s: System) {
    && s.lock == None && s.handlers == map[]
    && (forall b :: b in s.catalog ==> Valid(s.catalog[b]))
    && (forall t :: t in s.tests ==> AllLoad(s.catalog, s.tests[t].bankIds))
  }

  ghost predicate InCritical(handler: Handler) { handler.Holding? || handler.Checked? || handler.Fetched? }

  /** What each handler may rely on until it releases the lock. */
  ghost predicate HandlerOk(s: System, handler: Handler) {
    match handler
    case Checked(SaveTest(_, _, test)) => AllLoad(s.catalog, test.bankIds)
    case Checked(DropBank(bankId)) => !Uses(s.tests, bankId)
    case Fetched(_, test) => AllLoad(s.catalog, test.bankIds)
    case Finished(PublishTest(_), outcome) => outcome != BankMissing
    case _ => true
  }

  ghost predicate Inv(s: System) {
    && (forall b :: b in s.catalog ==> Valid(s.catalog[b]))
    && (forall t :: t in s.tests ==> AllLoad(s.catalog, s.tests[t].bankIds))
    && (forall h :: h in s.handlers && InCritical(s.handlers[h]) ==> s.lock == Some(h))
    && (forall h :: h in s.handlers ==> HandlerOk(s, s.handlers[h]))
  }

  /** Handlers outside the critical section rely on nothing that others change. */
  lemma OthersStayOk(s: System, s': System, h: int)
    requires Inv(s) && s.lock == Some(h)
    requires forall g :: g in s'.handlers && g != h ==> g in s.handlers && s'.handlers[g] == s.handlers[g]
    ensures forall g :: g in s'.handlers && g != h ==> !InCritical(s'.handlers[g]) && HandlerOk(s', s'.handlers[g])
  {}

  lemma LargerCatalogLoads(catalog: Catalog, bankId: string, quiz: Quiz, ids: seq<string>)
    requires AllLoad(catalog, ids) && Valid(quiz)
    ensures AllLoad(catalog[bankId := quiz], ids)
  {}

  lemma SaveKeepsInv(s: System, h: int)
    requires Inv(s) && h in s.handlers && s.lock == Some(h)
    requires s.handlers[h].Checked? && s.handlers[h].request.SaveTest?
    ensures Inv(ProceedStep(s, h))
  {
    assert HandlerOk(s, s.handlers[h]);
    OthersStayOk(s, ProceedStep(s, h), h);
  }

  lemma DropKeepsInv(s: System, h: int)
    requires Inv(s) && h in s.handlers && s.lock == Some(h)
    requires s.handlers[h].Checked? && s.handlers[h].request.DropBank?
    ensures Inv(ProceedStep(s, h))
  {
    var bankId := s.handlers[h].request.bankId;
    assert HandlerOk(s, s.handlers[h]);
    var s' := ProceedStep(s, h);
    OthersStayOk(s, s', h);
    forall t | t in s'.tests ensures AllLoad(s'.catalog, s'.tests[t].bankIds) {
      assert bankId !in s.tests[t].bankIds;
    }
  }

  lemma StoredBankKeepsInv(s: System, h: int, request: Request, bankId: string, quiz: Quiz)
    requires Inv(s) && s.lock == Some(h) && Valid(quiz) && !request.PublishTest?
    ensures Inv(End(s, h, request, Succeeded).(catalog := s.catalog[bankId := quiz]))
  {
    var s' := End(s, h, request, Succeeded).(catalog := s.catalog[bankId := quiz]);
    OthersStayOk(s, s', h);
    forall t | t in s'.tests ensures AllLoad(s'.catalog, s'.tests[t].bankIds) {
      LargerCatalogLoads(s.catalog, bankId, quiz, s.tests[t].bankIds);
    }
  }

  /** A step that only changes what its handler remembers, and may release the lock. */
  lemma HandlerChangeKeepsInv(s: System, h: int, handler: Handler, lock: Option<int>)
    requires Inv(s) && s.lock == Some(h) && HandlerOk(s, handler)
    requires InCritical(handler) ==> lock == Some(h)
    ensures Inv(With(s, h, handler).(lock := lock))
  {
    OthersStayOk(s, With(s, h, handler).(lock := lock), h);
  }

  lemma CatalogStepKeepsInv(s: System, h: int)
    requires Inv(s) && h in s.handlers && s.lock == Some(h)
    requires s.handlers[h].Holding? && (s.handlers[h].request.ImportBank? || s.handlers[h].request.EditBank?)
    ensures Inv(ProceedStep(s, h))
  {
    var request := s.handlers[h].request;
    HandlerChangeKeepsInv(s, h, Finished(request, Refused), None);
    match request {
      case ImportBank(bankId, quiz) =>
        if Valid(quiz) {
          StoredBankKeepsInv(s, h, request, bankId, quiz);
        }
      case EditBank(bankId, edit) =>
        if bankId in s.catalog && Stored(s.catalog[bankId], edit).Some? {
          StoredBankKeepsInv(s, h, request, bankId, Stored(s.catalog[bankId], edit).value);
        }
    }
  }

  lemma ReadStepKeepsInv(s: System, h: int)
    requires Inv(s) && h in s.handlers && s.lock == Some(h)
    requires s.handlers[h].Fetched?
      || (s.handlers[h].Holding? && !s.handlers[h].request.ImportBank? && !s.handlers[h].request.EditBank?)
    ensures Inv(ProceedStep(s, h))
  {
    var handler := s.handlers[h];
    assert HandlerOk(s, handler);
    match handler {
      case Fetched(testId, test) =>
        HandlerChangeKeepsInv(s, h, Finished(PublishTest(testId), Composing(s.catalog, test)), None);
      case Holding(request) =>
        match request {
          case SaveTest(_, _, test) =>
            if Composing(s.catalog, test) == Succeeded {
              HandlerChangeKeepsInv(s, h, Checked(request), s.lock);
            } else {
              HandlerChangeKeepsInv(s, h, Finished(request, Composing(s.catalog, test)), None);
            }
          case PublishTest(testId) =>
            if testId in s.tests {
              HandlerChangeKeepsInv(s, h, Fetched(testId, s.tests[testId]), s.lock);
            } else {
              HandlerChangeKeepsInv(s, h, Finished(request, Refused), None);
            }
          case DropBank(bankId) =>
            if Uses(s.tests, bankId) {
              HandlerChangeKeepsInv(s, h, Finished(request, Refused), None);
            } else {
              HandlerChangeKeepsInv(s, h, Checked(request), s.lock);
            }
        }
    }
  }

  lemma DeletionKeepsInv(s: System, testId: string)
    requires Inv(s)
    ensures Inv(s.(tests := s.tests - {testId}))
  {
    var s' := s.(tests := s.tests - {testId});
    forall h | h in s'.handlers ensures HandlerOk(s', s'.handlers[h]) {
      assert HandlerOk(s, s.handlers[h]);
    }
  }

  lemma StepKeepsInv(s: System, a: Action)
    requires Inv(s)
    ensures Inv(Next(s, a))
  {
    if a.DeleteSavedTest? {
      DeletionKeepsInv(s, a.testId);
    } else if a.Proceed? && a.h in s.handlers && s.lock == Some(a.h) {
      var handler := s.handlers[a.h];
      if handler.Checked? && handler.request.SaveTest? {
        SaveKeepsInv(s, a.h);
      } else if handler.Checked? && handler.request.DropBank? {
        DropKeepsInv(s, a.h);
      } else if handler.Holding? && (handler.request.ImportBank? || handler.request.EditBank?) {
        CatalogStepKeepsInv(s, a.h);
      } else if handler.Holding? || handler.Fetched? {
        ReadStepKeepsInv(s, a.h);
      } else {
        assert Next(s, a) == s;
      }
    } else {
      EntryKeepsInv(s, a);
    }
  }

  lemma EntryKeepsInv(s: System, a: Action)
    requires Inv(s) && (a.Arrive? || a.Acquire? || (a.Proceed? && Next(s, a) == s))
    ensures Inv(Next(s, a))
  {
    forall h | h in s.handlers ensures HandlerOk(Next(s, a), s.handlers[h]) {
      assert HandlerOk(s, s.handlers[h]);
    }
  }

  /** Under every interleaving of the handlers, every bank that a saved test references is in
      the catalog and loads, and no publication of a saved test fails for a missing bank. */
  lemma {:induction false} SavedTestsKeepTheirBanks(s: System, actions: seq<Action>)
    requires Start(s) || Inv(s)
    ensures Inv(Run(s, actions))
    ensures var s' := Run(s, actions);
      && (forall t, id :: t in s'.tests && id in s'.tests[t].bankIds ==> Loadable(s'.catalog, id))
      && (forall h :: h in s'.handlers && s'.handlers[h].Finished? && s'.handlers[h].request.PublishTest? ==>
            s'.handlers[h].outcome != BankMissing)
    decreases |actions|
  {
    if actions != [] {
      StepKeepsInv(s, actions[0]);
      SavedTestsKeepTheirBanks(Next(s, actions[0]), actions[1..]);
    }
    var s' := Run(s, actions);
    forall h | h in s'.handlers && s'.handlers[h].Finished? && s'.handlers[h].request.PublishTest?
      ensures s'.handlers[h].outcome != BankMissing
    {
      assert HandlerOk(s', s'.handlers[h]);
    }
  }

  // ---------- who changes what ----------

  /** The handler that the step lets act. */
  ghost predicate Acts(s: System, a: Action, h: int) {
    a == Proceed(h) && h in s.handlers && s.lock == Some(h) && InCritical(s.handlers[h])
  }

  function RequestOf(handler: Handler): Request {
    match handler
    case Waiting(request) => request
    case Holding(request) => request
    case Checked(request) => request
    case Fetched(testId, _) => PublishTest(testId)
    case Finished(request, _) => request
  }

  /** A saved test changes only by its deletion or by a handler that saves it: a new one never
      replaces a saved one, and an edit keeps the id. It is saved with its title trimmed. */
  lemma TestsChangeOnRequest(s: System, a: Action, t: string)
    requires (t in s.tests) != (t in Next(s, a).tests) || (t in s.tests && s.tests[t] != Next(s, a).tests[t])
    ensures if a.DeleteSavedTest? then a.testId == t && t !in Next(s, a).tests
            else
              && a.Proceed? && Acts(s, a, a.h) && RequestOf(s.handlers[a.h]).SaveTest?
              && var SaveTest(existing, testId, test) := RequestOf(s.handlers[a.h]);
              && testId == t && t in Next(s, a).tests
              && Next(s, a).tests[t] == test.(title := Trim(test.title))
              && (existing.None? <==> t !in s.tests) && (existing.Some? ==> existing.value == t)
  {}

  /** A bank changes only by a handler that imports it under a new id, edits it, or drops it while
      no saved test uses it. */
  lemma BanksChangeOnRequest(s: System, a: Action, b: string)
    requires Inv(s)
    requires (b in s.catalog) != (b in Next(s, a).catalog)
             || (b in s.catalog && s.catalog[b] != Next(s, a).catalog[b])
    ensures a.Proceed? && Acts(s, a, a.h)
    ensures var after := Next(s, a).catalog;
      match RequestOf(s.handlers[a.h])
      case ImportBank(id, quiz) => id == b && b !in s.catalog && b in after && after[b] == quiz
      case EditBank(id, edit) => id == b && b in s.catalog && b in after && Stored(s.catalog[b], edit) == Some(after[b])
      case DropBank(id) => id == b && b in s.catalog && b !in after && !Uses(s.tests, b)
      case _ => false
  {
    ActorIs(s, a);
    match s.handlers[a.h] {
      case Checked(request) =>
        assert HandlerOk(s, s.handlers[a.h]);
      case _ =>
    }
  }

  /** Only the holder of the lock changes the catalog. */
  lemma ActorIs(s: System, a: Action)
    requires Inv(s) && s.catalog != Next(s, a).catalog
    ensures a.Proceed? && Acts(s, a, a.h) && Next(s, a) == ProceedStep(s, a.h)
  {}

  /** A handler that ends with success has done what was requested. */
  lemma SuccessMeansDone(s: System, a: Action, h: int)
    requires Acts(s, a, h) && h in Next(s, a).handlers
    requires Next(s, a).handlers[h] == Finished(RequestOf(s.handlers[h]), Succeeded)
    ensures var next := Next(s, a);
      next.lock == None &&
      match RequestOf(s.handlers[h])
      case SaveTest(_, t, test) => t in next.tests && next.tests[t] == test.(title := Trim(test.title))
      case PublishTest(t) => s.handlers[h].Fetched? && Composing(s.catalog, s.handlers[h].test) == Succeeded
      case DropBank(b) => b in s.catalog && b !in next.catalog
      case ImportBank(b, quiz) => b !in s.catalog && b in next.catalog && next.catalog[b] == quiz
      case EditBank(b, edit) => b in s.catalog && b in next.catalog
                                && Stored(s.catalog[b], edit) == Some(next.catalog[b])
  {}
}
