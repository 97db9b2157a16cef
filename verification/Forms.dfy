/** The administrator's forms for tests and questions: what is rendered and what is parsed back
    (src/web.rs, templates/test.html, templates/bank.html). */
module Forms {
  import opened Wrappers
  import opened Text
  import opened Identifiers
  import opened Quizzes
  import opened Schema
  import opened Transactions

  // ---------- the bank list of the test form ----------

  datatype BankOption = BankOption(position: nat, id: string, selected: bool)

  /** The elements of `xs` that are in `others`, in order. */
  function Within(xs: seq<string>, others: seq<string>): seq<string> {
    if xs == [] then []
    else Within(xs[..|xs| - 1], others) + (if xs[|xs| - 1] in others then [xs[|xs| - 1]] else [])
  }

  function Outside(xs: seq<string>, others: seq<string>): seq<string> {
    if xs == [] then []
    else Outside(xs[..|xs| - 1], others) + (if xs[|xs| - 1] in others then [] else [xs[|xs| - 1]])
  }

  lemma {:induction false} WithinElements(xs: seq<string>, others: seq<string>)
    ensures forall x :: x in Within(xs, others) <==> x in xs && x in others
    ensures forall x :: x in Outside(xs, others) <==> x in xs && x !in others
    ensures |Within(xs, others)| <= |xs|
  {
    if xs != [] {
      WithinElements(xs[..|xs| - 1], others);
      assert xs == xs[..|xs| - 1] + [xs[|xs| - 1]];
    }
  }

  /** The selected banks that exist, in their saved order, then the other banks in catalog
      order; positions count through the whole list. */
  ghost predicate LaidOut(options: seq<BankOption>, banks: seq<string>, selected: seq<string>) {
    var ordered := Within(selected, banks) + Outside(banks, selected);
    && |options| == |ordered|
    && forall i :: 0 <= i < |options| ==>
         options[i] == BankOption(i, ordered[i], i < |Within(selected, banks)|)
  }

  method BankOptionsForTest(banks: seq<string>, selected: seq<string>) returns (options: seq<BankOption>)
    ensures LaidOut(options, banks, selected)
  {
    var ordered: seq<string> := [];
    for k := 0 to |selected|
      invariant ordered == Within(selected[..k], banks)
    {
      assert selected[..k + 1][..k] == selected[..k];
      if selected[k] in banks {
        ordered := ordered + [selected[k]];
      }
    }
    assert selected[..|selected|] == selected;
    WithinElements(selected, banks);
    WithinElements(banks, selected);
    var known, rest := ordered, Outside(banks, selected);
    ordered := ordered + rest;
    options := seq(|ordered|, i requires 0 <= i < |ordered| => BankOption(i, ordered[i], ordered[i] in selected));
    forall i | 0 <= i < |ordered| ensures ordered[i] in selected <==> i < |known| {
      if i < |known| {
        assert ordered[i] == known[i] && known[i] in known;
      } else {
        assert ordered[i] == rest[i - |known|] && rest[i - |known|] in rest;
      }
    }
  }

  const BANK_FIELD := "bank_"

  function FieldName(position: nat): string { BANK_FIELD + Decimal(position) }

  /** The position a field name stands for, if it is the name of a bank check box. */
  function FieldPosition(name: string): Option<nat> {
    match StripPrefix(name, BANK_FIELD)
    case None => None
    case Some(number) => ParseUnsigned(number, U64_MAX)
  }

  lemma FieldNameRoundTrip(position: nat)
    requires position <= U64_MAX
    ensures FieldPosition(FieldName(position)) == Some(position)
  {
    ParseOfDecimal(position, U64_MAX);
    assert FieldName(position)[|BANK_FIELD|..] == Decimal(position);
  }

  /** The fields that a submitted form holds for the checked banks; all other fields have names
      that are no bank position. */
  ghost predicate Submitted(options: seq<BankOption>, fields: map<string, string>) {
    && (forall o :: o in options && o.selected ==>
          FieldName(o.position) in fields && fields[FieldName(o.position)] == o.id)
    && (forall name :: name in fields && FieldPosition(name).Some? ==>
          exists o :: o in options && o.selected && name == FieldName(o.position))
  }

  /** Some order in which the entries of a map may be visited; the program visits them in the
      lexicographic order of their names. */
  ghost predicate Enumerates(entries: seq<(string, string)>, fields: map<string, string>) {
    && (forall e :: e in entries ==> e.0 in fields && fields[e.0] == e.1)
    && (forall name :: name in fields ==> (name, fields[name]) in entries)
    && (forall i, j :: 0 <= i < j < |entries| ==> entries[i].0 != entries[j].0)
  }

  type Placed = (nat, string)

  function Checkboxes(entries: seq<(string, string)>): seq<Placed> {
    if entries == [] then []
    else
      match FieldPosition(entries[0].0)
      case None => Checkboxes(entries[1..])
      case Some(position) => [(position, entries[0].1)] + Checkboxes(entries[1..])
  }

  /** A stable sort by position. */
  function Insert(x: Placed, sorted: seq<Placed>): seq<Placed> {
    if sorted == [] || x.0 <= sorted[0].0 then [x] + sorted else [sorted[0]] + Insert(x, sorted[1..])
  }

  function SortByPosition(xs: seq<Placed>): seq<Placed> {
    if xs == [] then [] else Insert(xs[0], SortByPosition(xs[1..]))
  }

  /** The pieces of one value: lines, split at commas, trimmed, without empty ones. */
  function Trimmed(pieces: seq<string>): seq<string> {
    if pieces == [] then []
    else (if Trim(pieces[0]) == "" then [] else [Trim(pieces[0])]) + Trimmed(pieces[1..])
  }

  function SplitLines(lines: seq<string>): seq<string> {
    if lines == [] then [] else Trimmed(Split(lines[0], ',')) + SplitLines(lines[1..])
  }

  function BankIds(values: seq<string>): seq<string> {
    if values == [] then [] else SplitLines(Lines(values[0])) + BankIds(values[1..])
  }

  function Values(placed: seq<Placed>): seq<string> {
    seq(|placed|, i requires 0 <= i < |placed| => placed[i].1)
  }

  /** The bank ids of a submitted form; the text field serves forms without check boxes. */
  function ParseBankIds(entries: seq<(string, string)>, text: string): seq<string> {
    var boxes := SortByPosition(Checkboxes(entries));
    BankIds(if boxes == [] then [text] else Values(boxes))
  }

  // ---------- the bank list round trip ----------

  ghost predicate Strict(xs: seq<Placed>) {
    forall i, j :: 0 <= i < j < |xs| ==> xs[i].0 < xs[j].0
  }

  ghost predicate DistinctPositions(xs: seq<Placed>) {
    forall i, j :: 0 <= i < j < |xs| ==> xs[i].0 != xs[j].0
  }

  lemma {:induction false} InsertKeepsStrict(x: Placed, sorted: seq<Placed>)
    requires Strict(sorted) && forall y :: y in sorted ==> y.0 != x.0
    ensures Strict(Insert(x, sorted))
    ensures forall y :: y in Insert(x, sorted) <==> y == x || y in sorted
  {
    if sorted != [] && x.0 > sorted[0].0 {
      InsertKeepsStrict(x, sorted[1..]);
      assert sorted == [sorted[0]] + sorted[1..];
      forall y | y in Insert(x, sorted[1..]) ensures sorted[0].0 < y.0 {
        if y != x {
          var i :| 0 <= i < |sorted[1..]| && sorted[1..][i] == y;
          assert sorted[i + 1] == y;
        }
      }
    }
  }

  lemma {:induction false} SortIsStrict(xs: seq<Placed>)
    requires DistinctPositions(xs)
    ensures Strict(SortByPosition(xs))
    ensures forall y :: y in SortByPosition(xs) <==> y in xs
  {
    if xs != [] {
      SortIsStrict(xs[1..]);
      assert xs == [xs[0]] + xs[1..];
      forall y | y in SortByPosition(xs[1..]) ensures y.0 != xs[0].0 {
        var i :| 0 <= i < |xs[1..]| && xs[1..][i] == y;
        assert xs[i + 1] == y;
      }
      InsertKeepsStrict(xs[0], SortByPosition(xs[1..]));
    }
  }

  lemma {:induction false} CheckboxElements(entries: seq<(string, string)>)
    ensures forall x :: x in Checkboxes(entries) <==>
      exists e :: e in entries && FieldPosition(e.0) == Some(x.0) && e.1 == x.1
  {
    if entries != [] {
      CheckboxElements(entries[1..]);
      assert entries == [entries[0]] + entries[1..];
    }
  }

  lemma {:induction false} CheckboxesAreDistinct(entries: seq<(string, string)>)
    requires forall i, j :: 0 <= i < j < |entries| && FieldPosition(entries[i].0).Some? ==>
      FieldPosition(entries[i].0) != FieldPosition(entries[j].0)
    ensures DistinctPositions(Checkboxes(entries))
  {
    if entries != [] {
      CheckboxesAreDistinct(entries[1..]);
      CheckboxElements(entries[1..]);
      if FieldPosition(entries[0].0).Some? {
        forall x | x in Checkboxes(entries[1..]) ensures x.0 != FieldPosition(entries[0].0).value {
          var e :| e in entries[1..] && FieldPosition(e.0) == Some(x.0) && e.1 == x.1;
          var j :| 0 <= j < |entries[1..]| && entries[1..][j] == e;
          assert entries[j + 1] == e;
        }
      }
    }
  }

  ghost predicate HasPosition(xs: seq<Placed>, p: nat) {
    exists j :: 0 <= j < |xs| && xs[j].0 == p
  }

  /** A strictly increasing list that holds exactly the positions below `n` counts them up. */
  lemma {:induction false} CountsUp(xs: seq<Placed>, n: nat, i: nat)
    requires Strict(xs) && i < |xs|
    requires forall x :: x in xs ==> x.0 < n
    requires forall p :: 0 <= p < n ==> HasPosition(xs, p)
    ensures xs[i].0 == i
    decreases i
  {
    if i > 0 {
      CountsUp(xs, n, i - 1);
    }
    assert xs[i] in xs;
    if xs[i].0 > i {
      assert HasPosition(xs, i);
      var j :| 0 <= j < |xs| && xs[j].0 == i;
    }
  }

  lemma SubmittedPositions(
    entries: seq<(string, string)>, options: seq<BankOption>, fields: map<string, string>,
    banks: seq<string>, selected: seq<string>)
    requires LaidOut(options, banks, selected) && |selected| <= U64_MAX
    requires Submitted(options, fields) && Enumerates(entries, fields)
    ensures DistinctPositions(Checkboxes(entries))
    ensures var kept := Within(selected, banks);
      forall x: Placed :: x in Checkboxes(entries) <==> x.0 < |kept| && x.1 == kept[x.0]
  {
    var kept := Within(selected, banks);
    WithinElements(selected, banks);
    CheckboxElements(entries);
    forall e | e in entries && FieldPosition(e.0).Some?
      ensures FieldPosition(e.0).value < |kept| && e.1 == kept[FieldPosition(e.0).value]
      ensures e.0 == FieldName(FieldPosition(e.0).value)
    {
      assert e.0 in fields;
      var o :| o in options && o.selected && e.0 == FieldName(o.position);
      FieldNameRoundTrip(o.position);
    }
    forall p | 0 <= p < |kept|
      ensures (FieldName(p), kept[p]) in entries && FieldPosition(FieldName(p)) == Some(p)
    {
      assert options[p] in options && options[p].selected;
      FieldNameRoundTrip(p);
    }
    forall x: Placed ensures x in Checkboxes(entries) <==> x.0 < |kept| && x.1 == kept[x.0] {
      if x.0 < |kept| && x.1 == kept[x.0] {
        assert (FieldName(x.0), kept[x.0]) in entries;
      }
    }
    forall i, j | 0 <= i < j < |entries| && FieldPosition(entries[i].0).Some?
      ensures FieldPosition(entries[i].0) != FieldPosition(entries[j].0)
    {
      assert entries[i] in entries && entries[j] in entries;
    }
    CheckboxesAreDistinct(entries);
  }

  lemma SortedCheckboxes(xs: seq<Placed>, kept: seq<string>)
    requires DistinctPositions(xs)
    requires forall x: Placed :: x in xs <==> x.0 < |kept| && x.1 == kept[x.0]
    ensures |SortByPosition(xs)| == |kept|
    ensures Values(SortByPosition(xs)) == kept
  {
    var sorted := SortByPosition(xs);
    SortIsStrict(xs);
    forall p | 0 <= p < |kept| ensures HasPosition(sorted, p) {
      var x: Placed := (p, kept[p]);
      assert x in sorted;
      var j :| 0 <= j < |sorted| && sorted[j] == x;
    }
    forall i | 0 <= i < |sorted| ensures sorted[i].0 == i && sorted[i].1 == kept[i] && i < |kept| {
      CountsUp(sorted, |kept|, i);
      assert sorted[i] in sorted;
    }
    assert !HasPosition(sorted, |sorted|);
    assert |sorted| > 0 ==> sorted[|sorted| - 1].0 < |kept|;
  }

  lemma PlainIdIsOnePiece(id: string)
    requires ValidBankId(id)
    ensures SplitLines(Lines(id)) == [id]
  {
    SplitOfOnePiece(id, '\n');
    SplitOfOnePiece(id, ',');
    TrimOfTrimmed(id);
    assert Lines(id) == [id];
    assert Trimmed([id]) == [id] + [] by { assert [id][1..] == []; }
    assert SplitLines([id]) == [id] + SplitLines([]) by { assert [id][1..] == []; }
  }

  lemma {:induction false} PlainIdsStay(ids: seq<string>)
    requires forall id :: id in ids ==> ValidBankId(id)
    ensures BankIds(ids) == ids
  {
    if ids != [] {
      assert ids == [ids[0]] + ids[1..];
      PlainIdIsOnePiece(ids[0]);
      PlainIdsStay(ids[1..]);
    }
  }

  /** Saving an unchanged test form gives back the saved bank order, restricted to the banks
      that still exist, whatever other fields the form has and in whatever order they are
      visited. */
  lemma UnchangedFormKeepsBanks(
    entries: seq<(string, string)>, options: seq<BankOption>, fields: map<string, string>,
    banks: seq<string>, selected: seq<string>)
    requires LaidOut(options, banks, selected) && |selected| <= U64_MAX
    requires forall id :: id in banks ==> ValidBankId(id)
    requires Submitted(options, fields) && Enumerates(entries, fields)
    ensures ParseBankIds(entries, "") == Within(selected, banks)
  {
    var kept := Within(selected, banks);
    SubmittedPositions(entries, options, fields, banks, selected);
    SortedCheckboxes(Checkboxes(entries), kept);
    WithinElements(selected, banks);
    if kept == [] {
      assert BankIds([""]) == [] by {
        assert Lines("") == [];
        assert [""][1..] == [];
      }
    } else {
      PlainIdsStay(kept);
    }
  }

  // ---------- the text field ----------

  /** The pieces of one line read as these ids: each is its id with white space around it. */
  ghost predicate ReadsAs(pieces: seq<string>, ids: seq<string>) {
    && |pieces| == |ids| >= 1
    && forall i :: 0 <= i < |ids| ==>
         && ids[i] != "" && Trim(pieces[i]) == ids[i]
         && ',' !in pieces[i] && '\n' !in pieces[i] && '\r' !in pieces[i]
  }

  lemma {:induction false} PiecesAreTrimmed(pieces: seq<string>, ids: seq<string>)
    requires |pieces| == |ids|
    requires forall i :: 0 <= i < |ids| ==> ids[i] != "" && Trim(pieces[i]) == ids[i]
    ensures Trimmed(pieces) == ids
  {
    if ids != [] {
      PiecesAreTrimmed(pieces[1..], ids[1..]);
      assert [ids[0]] + ids[1..] == ids;
    }
  }

  lemma {:induction false} JoinedHas(parts: seq<string>, sep: string, c: char)
    requires c !in sep && forall i :: 0 <= i < |parts| ==> c !in parts[i]
    ensures c !in Join(parts, sep)
  {
    if |parts| > 1 {
      JoinedHas(parts[1..], sep, c);
    }
  }

  lemma LineReadsAs(pieces: seq<string>, ids: seq<string>)
    requires ReadsAs(pieces, ids)
    ensures var line := Join(pieces, ",");
      line != "" && '\n' !in line && '\r' !in line && Trimmed(Split(line, ',')) == ids
  {
    SplitOfJoin(pieces, ',');
    PiecesAreTrimmed(pieces, ids);
    JoinedHas(pieces, ",", '\n');
    JoinedHas(pieces, ",", '\r');
    assert pieces[0] != "" by {
      assert Trim("") == "";
    }
  }

  function Flattened(rows: seq<seq<string>>): seq<string> {
    if rows == [] then [] else rows[0] + Flattened(rows[1..])
  }

  function JoinedRows(rows: seq<seq<string>>): seq<string> {
    seq(|rows|, i requires 0 <= i < |rows| => Join(rows[i], ","))
  }

  lemma {:induction false} RowsReadAs(rows: seq<seq<string>>, ids: seq<seq<string>>)
    requires |rows| == |ids| && forall i :: 0 <= i < |rows| ==> ReadsAs(rows[i], ids[i])
    ensures SplitLines(JoinedRows(rows)) == Flattened(ids)
  {
    if rows != [] {
      LineReadsAs(rows[0], ids[0]);
      RowsReadAs(rows[1..], ids[1..]);
      assert JoinedRows(rows)[1..] == JoinedRows(rows[1..]);
    }
  }

  /** In a form without check boxes, bank ids separated by commas and line breaks, with white space
      around them, are read as exactly these ids in order. */
  lemma TextFieldIsRead(
    entries: seq<(string, string)>, rows: seq<seq<string>>, ids: seq<seq<string>>, crlf: bool)
    requires forall e :: e in entries ==> FieldPosition(e.0).None?
    requires |rows| == |ids| >= 1 && forall i :: 0 <= i < |rows| ==> ReadsAs(rows[i], ids[i])
    ensures ParseBankIds(entries, Join(JoinedRows(rows), if crlf then "\r\n" else "\n")) == Flattened(ids)
  {
    var lines := JoinedRows(rows);
    var text := Join(lines, if crlf then "\r\n" else "\n");
    NoCheckboxes(entries);
    RowsArePlain(rows, ids);
    LinesOfJoined(lines, crlf);
    RowsReadAs(rows, ids);
    OneValue(text);
  }

  lemma RowsArePlain(rows: seq<seq<string>>, ids: seq<seq<string>>)
    requires |rows| == |ids| && forall i :: 0 <= i < |rows| ==> ReadsAs(rows[i], ids[i])
    ensures forall line :: line in JoinedRows(rows) ==> line != "" && '\n' !in line && '\r' !in line
  {
    forall line | line in JoinedRows(rows) ensures line != "" && '\n' !in line && '\r' !in line {
      var i :| 0 <= i < |rows| && JoinedRows(rows)[i] == line;
      LineReadsAs(rows[i], ids[i]);
    }
  }

  lemma OneValue(text: string)
    ensures BankIds([text]) == SplitLines(Lines(text))
  {
    assert [text][1..] == [];
  }

  lemma {:induction false} NoCheckboxes(entries: seq<(string, string)>)
    requires forall e :: e in entries ==> FieldPosition(e.0).None?
    ensures Checkboxes(entries) == []
  {
    if entries != [] {
      assert entries[0] in entries;
      NoCheckboxes(entries[1..]);
    }
  }

  // ---------- the whole test form ----------

  datatype TestForm = TestForm(
    testId: string, title: string, threshold: string, maxAttempts: string, questionLimit: string,
    shuffleQuestions: bool, shuffleChoices: bool, bankText: string, entries: seq<(string, string)>)

  function ParseTestForm(form: TestForm): Option<(string, Test)> {
    var threshold := ParseUnsigned(form.threshold, U32_MAX);
    var maxAttempts := ParseUnsigned(form.maxAttempts, U32_MAX);
    var limitText := Trim(form.questionLimit);
    var limit := ParseUnsigned(limitText, U32_MAX);
    if threshold.None? || maxAttempts.None? || (limitText != "" && limit.None?) then None
    else
      Some((Trim(form.testId),
            Test(Trim(form.title), ParseBankIds(form.entries, form.bankText), threshold.value, maxAttempts.value,
                 if limitText == "" then None else Some(limit.value), form.shuffleQuestions, form.shuffleChoices)))
  }

  /** The values that the edit page fills in for a saved test. */
  function FilledForm(testId: string, test: Test, entries: seq<(string, string)>): TestForm {
    TestForm(testId, test.title, Decimal(test.threshold), Decimal(test.maxAttempts),
             if test.questionLimit.None? then "" else Decimal(test.questionLimit.value),
             test.shuffleQuestions, test.shuffleChoices, "", entries)
  }

  lemma DecimalIsTrimmed(n: nat)
    ensures Trim(Decimal(n)) == Decimal(n) != ""
  {
    DecimalRoundTrip(n);
    var s := Decimal(n);
    assert IsDigit(s[0]) && IsDigit(s[|s| - 1]);
    TrimOfTrimmed(s);
  }

  /** Saving the edit page of a test without changes stores the same test, except that banks
      which no longer exist drop out. */
  lemma UnchangedFormKeepsTest(
    testId: string, test: Test, entries: seq<(string, string)>, options: seq<BankOption>,
    fields: map<string, string>, banks: seq<string>)
    requires ValidTest(testId, test) && Trim(test.title) == test.title
    requires LaidOut(options, banks, test.bankIds)
    requires forall id :: id in banks ==> ValidBankId(id)
    requires Submitted(options, fields) && Enumerates(entries, fields)
    ensures ParseTestForm(FilledForm(testId, test, entries))
            == Some((testId, test.(bankIds := Within(test.bankIds, banks))))
  {
    UnchangedFormKeepsBanks(entries, options, fields, banks, test.bankIds);
    TrimOfTrimmed(testId);
    ParseOfDecimal(test.threshold, U32_MAX);
    ParseOfDecimal(test.maxAttempts, U32_MAX);
    TrimOfTrimmed("");
    if test.questionLimit.Some? {
      ParseOfDecimal(test.questionLimit.value, U32_MAX);
      DecimalIsTrimmed(test.questionLimit.value);
    }
  }

  /** White space around the id, the title and the question limit makes no difference. */
  lemma FormIgnoresPadding(form: TestForm, padded: TestForm)
    requires Trim(padded.testId) == Trim(form.testId) && Trim(padded.title) == Trim(form.title)
    requires Trim(padded.questionLimit) == Trim(form.questionLimit)
    requires padded == form.(testId := padded.testId, title := padded.title, questionLimit := padded.questionLimit)
    ensures ParseTestForm(padded) == ParseTestForm(form)
  {}

  // ---------- the question form ----------

  /** `parse_question_fields`. */
  function ParseQuestion(prompt: string, choices: string, correctIndex: string): Option<Question> {
    match ParseUnsigned(correctIndex, U64_MAX)
    case None => None
    case Some(index) => Some(Question(Trim(prompt), Trimmed(Lines(choices)), index))
  }

  function TrimAll(choices: seq<string>): seq<string> {
    seq(|choices|, i requires 0 <= i < |choices| => Trim(choices[i]))
  }

  lemma {:induction false} LinesOfJoined(choices: seq<string>, crlf: bool)
    requires choices != []
    requires forall c :: c in choices ==> c != "" && '\n' !in c && '\r' !in c
    ensures Lines(Join(choices, if crlf then "\r\n" else "\n")) == choices
  {
    if |choices| == 1 {
      assert choices[0] in choices;
      SplitOfOnePiece(choices[0], '\n');
    } else {
      var first, rest := choices[0], choices[1..];
      var eol := if crlf then "\r\n" else "\n";
      assert choices == [first] + rest;
      assert first in choices && forall c :: c in rest ==> c in choices;
      LinesOfJoined(rest, crlf);
      FirstLine(first, Join(rest, eol), crlf);
      assert Join(choices, eol) == first + eol + Join(rest, eol);
    }
  }

  lemma FirstLine(first: string, rest: string, crlf: bool)
    requires first != "" && '\n' !in first && '\r' !in first
    ensures Lines(first + (if crlf then "\r\n" else "\n") + rest) == [first] + Lines(rest)
  {
    var line := if crlf then first + "\r" else first;
    assert first + (if crlf then "\r\n" else "\n") + rest == line + ['\n'] + rest;
    SplitAtFirst(line, rest, '\n');
    assert ([line] + Split(rest, '\n'))[1..] == Split(rest, '\n');
    assert StripCarriageReturn(line) == first;
  }

  lemma {:induction false} TrimmedKeepsAll(choices: seq<string>)
    requires forall c :: c in choices ==> Trim(c) != ""
    ensures Trimmed(choices) == TrimAll(choices)
  {
    if choices != [] {
      assert choices[0] in choices;
      TrimmedKeepsAll(choices[1..]);
    }
  }

  /** A question shown in the edit form and parsed back, with either line ending of the
      browser, keeps its number of choices and its correct index; prompt and choices are equal
      up to trimming, and the question stays valid. */
  lemma QuestionFormRoundTrip(q: Question, crlf: bool)
    requires ValidQuestion(q)
    ensures var text := Join(q.choices, if crlf then "\r\n" else "\n");
      var parsed := ParseQuestion(q.prompt, text, Decimal(q.correctIndex));
      && parsed == Some(Question(Trim(q.prompt), TrimAll(q.choices), q.correctIndex))
      && ValidQuestion(parsed.value)
  {
    forall c | c in q.choices ensures c != "" && '\n' !in c && '\r' !in c && Trim(c) != "" {
      var i :| 0 <= i < |q.choices| && q.choices[i] == c;
      assert ValidText(q.choices[i], 500);
      TrimShape(c);
    }
    LinesOfJoined(q.choices, crlf);
    TrimmedKeepsAll(q.choices);
    ParseOfDecimal(q.correctIndex, U64_MAX);
    TrimmingKeepsQuestionValid(q);
  }

  lemma TrimmingKeepsText(value: string, max: nat)
    requires ValidText(value, max)
    ensures ValidText(Trim(value), max)
  {
    TrimShape(value);
  }

  lemma TrimmingKeepsQuestionValid(q: Question)
    requires ValidQuestion(q)
    ensures ValidQuestion(Question(Trim(q.prompt), TrimAll(q.choices), q.correctIndex))
  {
    var choices := TrimAll(q.choices);
    TrimmingKeepsText(q.prompt, 2000);
    forall i | 0 <= i < |choices| ensures ValidText(choices[i], 500) {
      TrimmingKeepsText(q.choices[i], 500);
    }
    forall i, j | 0 <= i < j < |choices| ensures Trim(choices[i]) != Trim(choices[j]) {
      TrimShape(q.choices[i]);
      TrimShape(q.choices[j]);
    }
  }
}
