/** Editing a question bank, and composing banks into one test (src/quiz.rs). */
module Banks {
  import opened Wrappers
  import opened Identifiers
  import opened Quizzes

  // ---------- editing one bank ----------

  datatype Edit =
    | Settings(environment: Environment, title: string, threshold: u32, attempts: u32)
    | Add(question: Question)
    | Replace(index: nat, question: Question)
    | Delete(index: nat)

  /** What an edit makes of the quiz, or `None` when the edit itself refuses. Deleting does
      not validate. */
  function Edited(q: Quiz, e: Edit): Option<Quiz> {
    match e
    case Settings(environment, title, threshold, attempts) =>
      var changed := q.(environment := environment, title := title, threshold := threshold, maxAttempts := attempts);
      if Valid(changed) then Some(changed) else None
    case Add(question) =>
      var changed := q.(questions := q.questions + [question]);
      if Valid(changed) then Some(changed) else None
    case Replace(index, question) =>
      if index >= |q.questions| then None
      else
        var changed := q.(questions := q.questions[index := question]);
        if Valid(changed) then Some(changed) else None
    case Delete(index) =>
      if index >= |q.questions| || |q.questions| == 1 then None
      else Some(q.(questions := q.questions[..index] + q.questions[index + 1..]))
  }

  /** What `Quiz::update` stores: load, edit, validate, replace the file; any failure keeps
      the file. */
  function Stored(q: Quiz, e: Edit): Option<Quiz> {
    var edited := Edited(q, e);
    if Valid(q) && edited.Some? && Valid(edited.value) then edited else None
  }

  /** A quiz in memory, edited in place; each failed edit restores what it replaced. */
  class QuizDocument {
    var title: string
    var environment: Environment
    var threshold: u32
    var maxAttempts: u32
    var questionLimit: Option<u32>
    var shuffleQuestions: bool
    var shuffleChoices: bool
    var questions: seq<Question>

    function Value(): Quiz
      reads this
    {
      Quiz(title, environment, threshold, maxAttempts, questionLimit, shuffleQuestions, shuffleChoices, questions)
    }

    constructor (q: Quiz)
      ensures Value() == q
    {
      title, environment, threshold, maxAttempts := q.title, q.environment, q.threshold, q.maxAttempts;
      questionLimit, shuffleQuestions, shuffleChoices := q.questionLimit, q.shuffleQuestions, q.shuffleChoices;
      questions := q.questions;
    }

    method UpdateSettings(newTitle: string, newThreshold: u32, newAttempts: u32) returns (ok: bool)
      modifies this
      ensures var changed := old(Value()).(title := newTitle, threshold := newThreshold, maxAttempts := newAttempts);
              ok == Valid(changed) && Value() == if ok then changed else old(Value())
    {
      var previous := (title, threshold, maxAttempts);
      title, threshold, maxAttempts := newTitle, newThreshold, newAttempts;
      ok := Valid(Value());
      if !ok {
        title, threshold, maxAttempts := previous.0, previous.1, previous.2;
      }
    }

    method AddQuestion(question: Question) returns (ok: bool)
      modifies this`questions
      ensures ok == Edited(old(Value()), Add(question)).Some?
      ensures Value() == if ok then Edited(old(Value()), Add(question)).value else old(Value())
    {
      questions := questions + [question];
      ok := Valid(Value());
      if !ok {
        questions := questions[..|questions| - 1];
      }
    }

    method EditQuestion(index: nat, question: Question) returns (ok: bool)
      modifies this`questions
      ensures ok == Edited(old(Value()), Replace(index, question)).Some?
      ensures Value() == if ok then Edited(old(Value()), Replace(index, question)).value else old(Value())
    {
      if index >= |questions| {
        return false;
      }
      var previous := questions[index];
      questions := questions[index := question];
      ok := Valid(Value());
      if !ok {
        questions := questions[index := previous];
      }
    }

    method DeleteQuestion(index: nat) returns (ok: bool)
      modifies this`questions
      ensures ok == Edited(old(Value()), Delete(index)).Some?
      ensures Value() == if ok then Edited(old(Value()), Delete(index)).value else old(Value())
    {
      if index >= |questions| {
        return false;
      }
      if |questions| == 1 {
        return false;
      }
      questions := questions[..index] + questions[index + 1..];
      ok := true;
    }
  }

  /** The stored file of one bank. */
  class BankFile {
    var stored: Quiz

    constructor (q: Quiz)
      ensures stored == q
    {
      stored := q;
    }

    method Update(e: Edit) returns (ok: bool)
      modifies this
      ensures ok == Stored(old(stored), e).Some?
      ensures stored == if ok then Stored(old(stored), e).value else old(stored)
    {
      if !Valid(stored) {
        return false;
      }
      var document := new QuizDocument(stored);
      match e {
        case Settings(environment, title, threshold, attempts) =>
          document.environment := environment;
          ok := document.UpdateSettings(title, threshold, attempts);
        case Add(question) =>
          ok := document.AddQuestion(question);
        case Replace(index, question) =>
          ok := document.EditQuestion(index, question);
        case Delete(index) =>
          ok := document.DeleteQuestion(index);
      }
      if !ok {
        return;
      }
      if !Valid(document.Value()) {
        return false;
      }
      stored := document.Value();
    }
  }

  /** Exactly when each edit of a valid bank is stored. A deletion that would leave fewer
      questions than the limit is the one edit that succeeds in memory and is then refused. */
  lemma EditIsStoredWhen(q: Quiz, e: Edit)
    requires Valid(q)
    ensures Stored(q, e).Some? <==>
      match e
      case Settings(_, title, threshold, attempts) =>
        ValidText(title, 200) && 1 <= threshold <= 100 && 1 <= attempts <= 100
      case Add(question) => ValidQuestion(question) && |q.questions| < 200
      case Replace(index, question) => index < |q.questions| && ValidQuestion(question)
      case Delete(index) => index < |q.questions| && |q.questions| > 1 && q.questionLimit != Some(|q.questions|)
  {
    match e {
      case Settings(_, _, _, _) =>
      case Add(question) =>
        var changed := q.questions + [question];
        assert changed[|q.questions|] == question;
        assert forall i :: 0 <= i < |q.questions| ==> changed[i] == q.questions[i];
      case Replace(index, question) =>
        if index < |q.questions| {
          assert q.questions[index := question][index] == question;
        }
      case Delete(index) =>
        if index < |q.questions| && |q.questions| > 1 {
          var kept := q.questions[..index] + q.questions[index + 1..];
          forall i | 0 <= i < |kept| ensures ValidQuestion(kept[i]) {
            assert kept[i] == q.questions[if i < index then i else i + 1];
          }
        }
    }
  }

  /** Deleting alone breaks the quiz exactly when the limit equals the question count. */
  lemma DeletionBreaksLimit(q: Quiz, index: nat)
    requires Valid(q) && Edited(q, Delete(index)).Some?
    ensures !Valid(Edited(q, Delete(index)).value) <==> q.questionLimit == Some(|q.questions|)
  {
    EditIsStoredWhen(q, Delete(index));
  }

  /** Everything but the questions. */
  ghost predicate SameSettings(q: Quiz, r: Quiz) {
    && r.title == q.title && r.environment == q.environment && r.threshold == q.threshold
    && r.maxAttempts == q.maxAttempts && r.questionLimit == q.questionLimit
    && r.shuffleQuestions == q.shuffleQuestions && r.shuffleChoices == q.shuffleChoices
  }

  /** What a stored edit makes of the bank, question by question: settings change four fields; a new
      question comes last; a replacement changes one position; a deletion closes the gap. */
  lemma StoredEditIs(q: Quiz, e: Edit)
    requires Stored(q, e).Some?
    ensures var r := Stored(q, e).value;
      match e
      case Settings(environment, title, threshold, attempts) =>
        && r.environment == environment && r.title == title && r.threshold == threshold && r.maxAttempts == attempts
        && r.questionLimit == q.questionLimit && r.shuffleQuestions == q.shuffleQuestions
        && r.shuffleChoices == q.shuffleChoices && r.questions == q.questions
      case Add(question) =>
        && SameSettings(q, r) && |r.questions| == |q.questions| + 1
        && (forall j :: 0 <= j < |q.questions| ==> r.questions[j] == q.questions[j])
        && r.questions[|q.questions|] == question
      case Replace(index, question) =>
        && SameSettings(q, r) && index < |r.questions| == |q.questions|
        && r.questions[index] == question
        && (forall j :: 0 <= j < |q.questions| && j != index ==> r.questions[j] == q.questions[j])
      case Delete(index) =>
        && SameSettings(q, r) && index < |q.questions| == |r.questions| + 1
        && (forall j :: 0 <= j < index ==> r.questions[j] == q.questions[j])
        && (forall j :: index < j < |q.questions| ==> r.questions[j - 1] == q.questions[j])
  {
    StoredIsEdited(q, e);
    match e {
      case Settings(_, _, _, _) =>
      case Add(question) => QuestionIsAdded(q, question);
      case Replace(index, question) => QuestionIsReplaced(q, index, question);
      case Delete(index) => QuestionIsDeleted(q, index);
    }
  }

  lemma StoredIsEdited(q: Quiz, e: Edit)
    requires Stored(q, e).Some?
    ensures Stored(q, e) == Edited(q, e)
  {}

  lemma QuestionIsAdded(q: Quiz, question: Question)
    requires Edited(q, Add(question)).Some?
    ensures var r := Edited(q, Add(question)).value;
      && SameSettings(q, r) && |r.questions| == |q.questions| + 1
      && (forall j :: 0 <= j < |q.questions| ==> r.questions[j] == q.questions[j])
      && r.questions[|q.questions|] == question
  {}

  lemma QuestionIsReplaced(q: Quiz, index: nat, question: Question)
    requires Edited(q, Replace(index, question)).Some?
    ensures var r := Edited(q, Replace(index, question)).value;
      && SameSettings(q, r) && index < |r.questions| == |q.questions| && r.questions[index] == question
      && (forall j :: 0 <= j < |q.questions| && j != index ==> r.questions[j] == q.questions[j])
  {}

  lemma QuestionIsDeleted(q: Quiz, index: nat)
    requires Edited(q, Delete(index)).Some?
    ensures var r := Edited(q, Delete(index)).value;
      && SameSettings(q, r) && index < |q.questions| == |r.questions| + 1
      && (forall j :: 0 <= j < index ==> r.questions[j] == q.questions[j])
      && (forall j :: index < j < |q.questions| ==> r.questions[j - 1] == q.questions[j])
  {}

  /** Deleting the question that was just added restores the bank. */
  lemma DeletingUndoesAdding(q: Quiz, question: Question)
    requires Stored(q, Add(question)).Some?
    ensures Stored(Stored(q, Add(question)).value, Delete(|q.questions|)) == Some(q)
  {
    var added := Stored(q, Add(question)).value;
    EditIsStoredWhen(added, Delete(|q.questions|));
    StoredEditIs(q, Add(question));
    StoredEditIs(added, Delete(|q.questions|));
    assert Stored(added, Delete(|q.questions|)).value.questions == q.questions;
  }

  /** Replacing a question back restores the bank. */
  lemma ReplacingBackRestores(q: Quiz, index: nat, question: Question)
    requires index < |q.questions| && Stored(q, Replace(index, question)).Some?
    ensures Stored(Stored(q, Replace(index, question)).value, Replace(index, q.questions[index])) == Some(q)
  {
    var replaced := Stored(q, Replace(index, question)).value;
    EditIsStoredWhen(replaced, Replace(index, q.questions[index]));
    StoredEditIs(q, Replace(index, question));
    StoredEditIs(replaced, Replace(index, q.questions[index]));
    assert Stored(replaced, Replace(index, q.questions[index])).value.questions == q.questions;
  }

  function StoredAfter(q: Quiz, edits: seq<Edit>): Quiz
    decreases |edits|
  {
    if edits == [] then q
    else
      var step := Stored(q, edits[0]);
      StoredAfter(if step.Some? then step.value else q, edits[1..])
  }

  /** Through any sequence of edits the stored bank stays valid and keeps its limit and its
      shuffle settings. */
  lemma {:induction false} EditsKeepBankValid(q: Quiz, edits: seq<Edit>)
    requires Valid(q)
    ensures Valid(StoredAfter(q, edits))
    ensures StoredAfter(q, edits).questionLimit == q.questionLimit
    ensures StoredAfter(q, edits).shuffleQuestions == q.shuffleQuestions
    ensures StoredAfter(q, edits).shuffleChoices == q.shuffleChoices
    decreases |edits|
  {
    if edits != [] {
      var step := Stored(q, edits[0]);
      EditsKeepBankValid(if step.Some? then step.value else q, edits[1..]);
    }
  }

  // ---------- composing banks ----------

  type Catalog = map<string, Quiz>

  datatype Options = Options(
    threshold: u32, maxAttempts: u32, questionLimit: Option<u32>, shuffleQuestions: bool, shuffleChoices: bool)

  datatype ComposeError =
    NoBanks | BadBankId(id: string) | DuplicateBank(id: string) | MissingBank(id: string) | InvalidQuiz

  /** Loading a bank fails when its file is missing or does not validate. */
  predicate Loadable(catalog: Catalog, id: string) {
    id in catalog && Valid(catalog[id])
  }

  ghost predicate Present(catalog: Catalog, ids: seq<string>) {
    forall id :: id in ids ==> id in catalog
  }

  ghost function Questions(catalog: Catalog, ids: seq<string>): seq<Question>
    requires Present(catalog, ids)
  {
    if ids == [] then []
    else
      assert ids[|ids| - 1] in ids;
      Questions(catalog, ids[..|ids| - 1]) + catalog[ids[|ids| - 1]].questions
  }

  /** The environment the selected banks share, or `General` when they differ. */
  ghost function CommonEnvironment(catalog: Catalog, ids: seq<string>): Environment
    requires ids != [] && Present(catalog, ids)
  {
    assert ids[0] in ids;
    if forall id :: id in ids ==> catalog[id].environment == catalog[ids[0]].environment
    then catalog[ids[0]].environment else General
  }

  /** Distinct, valid ids of banks that load. */
  ghost predicate Usable(catalog: Catalog, ids: seq<string>) {
    && Distinct(ids)
    && forall id :: id in ids ==> ValidBankId(id) && Loadable(catalog, id)
  }

  /** When a selection of banks makes a quiz. */
  ghost predicate Composable(catalog: Catalog, title: string, ids: seq<string>, options: Options) {
    && ids != [] && Usable(catalog, ids)
    && ValidText(title, 200)
    && 1 <= options.threshold <= 100 && 1 <= options.maxAttempts <= 100
    && |Questions(catalog, ids)| <= 200
    && ValidLimit(options.questionLimit, |Questions(catalog, ids)|)
  }

  ghost function Composition(catalog: Catalog, title: string, ids: seq<string>, options: Options): Quiz
    requires ids != [] && Present(catalog, ids)
  {
    Quiz(title, CommonEnvironment(catalog, ids), options.threshold, options.maxAttempts, options.questionLimit,
         options.shuffleQuestions, options.shuffleChoices, Questions(catalog, ids))
  }

  lemma {:induction false} QuestionsAreValid(catalog: Catalog, ids: seq<string>)
    requires forall id :: id in ids ==> Loadable(catalog, id)
    ensures Present(catalog, ids)
    ensures forall i :: 0 <= i < |Questions(catalog, ids)| ==> ValidQuestion(Questions(catalog, ids)[i])
    ensures ids != [] ==> |Questions(catalog, ids)| >= 1
  {
    if ids != [] {
      var last := ids[|ids| - 1];
      assert last in ids;
      QuestionsAreValid(catalog, ids[..|ids| - 1]);
    }
  }

  /** One step of the environment fold. */
  lemma EnvironmentStep(catalog: Catalog, ids: seq<string>, id: string)
    requires ids != [] && id in catalog && Present(catalog, ids)
    ensures Present(catalog, ids + [id])
    ensures CommonEnvironment(catalog, ids + [id]) ==
      if CommonEnvironment(catalog, ids) == catalog[id].environment then catalog[id].environment else General
  {
    var all := ids + [id];
    assert id in all && all[0] == ids[0] && ids[0] in ids;
    forall x | x in ids ensures x in all {}
  }

  lemma UsableStep(catalog: Catalog, ids: seq<string>, id: string)
    requires Usable(catalog, ids)
    ensures Usable(catalog, ids + [id]) <==> id !in ids && ValidBankId(id) && Loadable(catalog, id)
  {
    var all := ids + [id];
    assert all[|ids|] == id;
    assert forall x :: x in all <==> x in ids || x == id;
    if id in ids {
      var i :| 0 <= i < |ids| && ids[i] == id;
      assert all[i] == all[|ids|];
    }
  }

  lemma UsablePrefix(catalog: Catalog, ids: seq<string>, k: nat)
    requires k <= |ids|
    ensures Usable(catalog, ids) ==> Usable(catalog, ids[..k])
  {
    forall id | id in ids[..k] ensures id in ids {}
  }

  /** One more bank in the selection. */
  lemma PrefixStep(catalog: Catalog, ids: seq<string>, k: nat)
    requires k < |ids| && Present(catalog, ids[..k]) && ids[k] in catalog
    ensures Present(catalog, ids[..k + 1])
    ensures Questions(catalog, ids[..k + 1]) == Questions(catalog, ids[..k]) + catalog[ids[k]].questions
    ensures CommonEnvironment(catalog, ids[..k + 1]) ==
      if k == 0 || CommonEnvironment(catalog, ids[..k]) == catalog[ids[k]].environment
      then catalog[ids[k]].environment else General
  {
    var before, all := ids[..k], ids[..k + 1];
    assert all == before + [ids[k]];
    assert all[..k] == before;
    if k > 0 {
      EnvironmentStep(catalog, before, ids[k]);
    }
  }

  /** The loop over the selected banks: it stops at the first bank that cannot be used. */
  method Gather(catalog: Catalog, ids: seq<string>)
    returns (r: Result<(Environment, seq<Question>), ComposeError>)
    requires ids != []
    ensures r.Ok? <==> Usable(catalog, ids)
    ensures r.Ok? ==> r.value == (CommonEnvironment(catalog, ids), Questions(catalog, ids))
    ensures r.Err? && r.error.MissingBank? ==> r.error.id in ids && !Loadable(catalog, r.error.id)
  {
    var unique: set<string> := {};
    var environment: Option<Environment> := None;
    var questions: seq<Question> := [];
    for k := 0 to |ids|
      invariant Usable(catalog, ids[..k])
      invariant forall id :: id in unique <==> id in ids[..k]
      invariant questions == Questions(catalog, ids[..k])
      invariant environment == if k == 0 then None else Some(CommonEnvironment(catalog, ids[..k]))
    {
      var id := ids[k];
      assert ids[..k + 1] == ids[..k] + [id];
      UsableStep(catalog, ids[..k], id);
      UsablePrefix(catalog, ids, k + 1);
      if !ValidBankId(id) {
        return Err(BadBankId(id));
      }
      if id in unique {
        return Err(DuplicateBank(id));
      }
      unique := unique + {id};
      if !Loadable(catalog, id) {
        return Err(MissingBank(id));
      }
      var bank := catalog[id];
      PrefixStep(catalog, ids, k);
      environment := match environment
        case None => Some(bank.environment)
        case Some(current) => if current == bank.environment then Some(current) else Some(General);
      questions := questions + bank.questions;
    }
    assert ids[..|ids|] == ids;
    r := Ok((environment.value, questions));
  }

  /** Composing succeeds exactly for distinct, valid, loadable banks within the limits, and
      then concatenates their questions in order under their common environment. */
  method Compose(catalog: Catalog, title: string, ids: seq<string>, options: Options)
    returns (r: Result<Quiz, ComposeError>)
    ensures r.Ok? <==> Composable(catalog, title, ids, options)
    ensures r.Ok? ==> r.value == Composition(catalog, title, ids, options) && Valid(r.value)
    ensures r.Err? && r.error.MissingBank? ==> r.error.id in ids && !Loadable(catalog, r.error.id)
  {
    if ids == [] {
      return Err(NoBanks);
    }
    var gathered := Gather(catalog, ids);
    if gathered.Err? {
      return Err(gathered.error);
    }
    var (environment, questions) := gathered.value;
    var quiz := Quiz(title, environment, options.threshold, options.maxAttempts, options.questionLimit,
                     options.shuffleQuestions, options.shuffleChoices, questions);
    QuestionsAreValid(catalog, ids);
    if !Valid(quiz) {
      return Err(InvalidQuiz);
    }
    r := Ok(quiz);
  }

  /** The order of the banks does not change the environment of the composition. */
  lemma EnvironmentIgnoresOrder(catalog: Catalog, ids: seq<string>, ids': seq<string>)
    requires ids != [] && multiset(ids) == multiset(ids') && Present(catalog, ids)
    ensures ids' != [] && Present(catalog, ids')
    ensures CommonEnvironment(catalog, ids) == CommonEnvironment(catalog, ids')
  {
    RearrangedElements(true, ids, ids');
    assert ids[0] in ids && ids'[0] in ids';
  }

  /** The question `j` of the bank `k` stands behind all questions of the banks selected before it. */
  lemma {:induction false} QuestionsInOrder(catalog: Catalog, ids: seq<string>, k: nat, j: nat)
    requires Present(catalog, ids) && k < |ids| && ids[k] in catalog && j < |catalog[ids[k]].questions|
    ensures Present(catalog, ids[..k])
    ensures var before := |Questions(catalog, ids[..k])|;
      && before + |catalog[ids[k]].questions| <= |Questions(catalog, ids)|
      && Questions(catalog, ids)[before + j] == catalog[ids[k]].questions[j]
    ensures k + 1 == |ids| ==>
      |Questions(catalog, ids)| == |Questions(catalog, ids[..k])| + |catalog[ids[k]].questions|
    decreases |ids|
  {
    var last := |ids| - 1;
    forall id | id in ids[..last] ensures id in ids {}
    if k < last {
      assert ids[..last][..k] == ids[..k];
      QuestionsInOrder(catalog, ids[..last], k, j);
    }
  }

  /** The composition has a particular environment exactly if every selected bank has it; it is
      general otherwise. */
  lemma EnvironmentIsShared(catalog: Catalog, title: string, ids: seq<string>, options: Options, e: Environment)
    requires ids != [] && Present(catalog, ids) && e != General
    ensures Composition(catalog, title, ids, options).environment == e <==>
      forall id :: id in ids ==> catalog[id].environment == e
  {
    assert ids[0] in ids;
  }
}
