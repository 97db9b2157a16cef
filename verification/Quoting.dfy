/** The two quoting layers of a forced-command line (src/policy.rs), each against the reader
    that undoes it: the shell (POSIX.1-2017, Shell Command Language, sections 2.2.2, 2.2.3 and
    2.3) and sshd (sshd(8), "AUTHORIZED_KEYS FILE FORMAT"). */
module Quoting {
  import opened Wrappers
  import opened Text

  predicate HasControl(value: string) {
    exists c :: c in value && (c as int == 0 || c == '\n' || c == '\r')
  }

  // ---------- printers ----------

  const QUOTE_IN_QUOTES := "'\"'\"'"

  /** A single-quoted shell word. */
  function ShellQuoted(value: string): string {
    "'" + Replace(value, '\'', QUOTE_IN_QUOTES) + "'"
  }

  /** A double-quoted option value: backslashes are doubled first, then quotes escaped. */
  function OptionQuoted(value: string): string {
    "\"" + Replace(Replace(value, '\\', "\\\\"), '"', "\\\"") + "\""
  }

  function AuthorizedOption(value: string): Option<string> {
    if HasControl(value) then None else Some(OptionQuoted(value))
  }

  // ---------- the shell as a reader ----------

  datatype Mode = Plain | Single | Double

  function Push(word: Option<string>, c: char): Option<string> {
    Some((if word.Some? then word.value else "") + [c])
  }

  function Opened(word: Option<string>): Option<string> {
    if word.Some? then word else Some("")
  }

  function Prepend(word: Option<string>, rest: Option<seq<string>>): Option<seq<string>> {
    if word.None? || rest.None? then rest else Some([word.value] + rest.value)
  }

  /** Characters that an unquoted word gives a meaning this reader does not follow: operators,
      expansions, patterns, comments and assignments. */
  predicate NeedsQuoting(c: char) {
    || c == '|' || c == '&' || c == ';' || c == '<' || c == '>' || c == '(' || c == ')' || c == '$' || c == '`'
    || c == '*' || c == '?' || c == '[' || c == '#' || c == '~' || c == '=' || c == '%' || c == '\n'
  }

  /** Splits a command into words and removes the quotes. `None` when a quote stays open or the
      text would make the shell do more than run one command with literal arguments. */
  function Words(s: string, mode: Mode, word: Option<string>): Option<seq<string>>
    decreases |s|
  {
    if s == "" then (if mode != Plain then None else Prepend(word, Some([])))
    else
      var c, rest := s[0], s[1..];
      match mode
      case Single =>
        if c == '\'' then Words(rest, Plain, word) else Words(rest, Single, Push(word, c))
      case Double =>
        if c == '"' then Words(rest, Plain, word)
        else if c == '\\' && rest != "" && rest[0] in "$`\"\\" then Words(rest[1..], Double, Push(word, rest[0]))
        else if c == '\\' && rest != "" && rest[0] == '\n' then Words(rest[1..], Double, word)
        else if c in "$`" then None
        else Words(rest, Double, Push(word, c))
      case Plain =>
        if c == ' ' || c == '\t' then Prepend(word, Words(rest, Plain, None))
        else if c == '\'' then Words(rest, Single, Opened(word))
        else if c == '"' then Words(rest, Double, Opened(word))
        else if c == '\\' then
          (if rest == "" then None
           else if rest[0] == '\n' then Words(rest[1..], Plain, word)
           else Words(rest[1..], Plain, Push(word, rest[0])))
        else if NeedsQuoting(c) then None
        else Words(rest, Plain, Push(word, c))
  }

  function ShellWords(command: string): Option<seq<string>> { Words(command, Plain, None) }

  // ---------- sshd as a reader ----------

  /** `QuoteOnly` is sshd: inside a quoted option value a backslash escapes only a double quote.
      `Symmetric` also lets it escape a backslash, undoing both escapes the printer makes. */
  datatype EscapeRule = QuoteOnly | Symmetric

  predicate Escapes(rule: EscapeRule, s: string) {
    |s| >= 2 && s[0] == '\\' && (s[1] == '"' || (rule == Symmetric && s[1] == '\\'))
  }

  function PrependTo(prefix: string, r: Option<(string, string)>): Option<(string, string)> {
    if r.None? then None else Some((prefix + r.value.0, r.value.1))
  }

  /** The options field: everything up to the first blank outside quotes. */
  function OptionsField(s: string, quoted: bool, rule: EscapeRule): Option<(string, string)>
    decreases |s|
  {
    if s == "" then None
    else if !quoted && (s[0] == ' ' || s[0] == '\t') then Some(("", s[1..]))
    else if Escapes(rule, s) then PrependTo(s[..2], OptionsField(s[2..], quoted, rule))
    else PrependTo([s[0]], OptionsField(s[1..], if s[0] == '"' then !quoted else quoted, rule))
  }

  /** A quoted value after its opening quote: the unescaped text and what follows it. */
  function Unquoted(s: string, rule: EscapeRule): (r: Option<(string, string)>)
    ensures r.Some? ==> |r.value.1| < |s|
    decreases |s|
  {
    if s == "" then None
    else if s[0] == '"' then Some(("", s[1..]))
    else if Escapes(rule, s) then PrependTo([s[1]], Unquoted(s[2..], rule))
    else PrependTo([s[0]], Unquoted(s[1..], rule))
  }

  /** What the policy prints before the quoted command. */
  const OPTIONS_PREFIX := "restrict,pty,command="

  datatype SshOption = Flag(name: string) | Setting(name: string, value: string)

  /** The name of an option ends at a comma or an equals sign. */
  function OptionName(s: string): (r: (string, string))
    ensures |r.0| + |r.1| == |s|
  {
    if s == "" || s[0] == ',' || s[0] == '=' then ("", s)
    else
      var (name, rest) := OptionName(s[1..]);
      ([s[0]] + name, rest)
  }

  /** The list of options: flags and settings with a quoted value, separated by commas. */
  function Options(s: string, rule: EscapeRule): Option<seq<SshOption>>
    decreases |s|
  {
    var (name, rest) := OptionName(s);
    if rest == "" then Some([Flag(name)])
    else if rest[0] == ',' then FirstOption(Flag(name), Options(rest[1..], rule))
    else if |rest| < 2 || rest[1] != '"' then None
    else
      match Unquoted(rest[2..], rule)
      case None => None
      case Some((value, after)) =>
        if after == "" then Some([Setting(name, value)])
        else if after[0] != ',' then None
        else FirstOption(Setting(name, value), Options(after[1..], rule))
  }

  function FirstOption(first: SshOption, rest: Option<seq<SshOption>>): Option<seq<SshOption>> {
    if rest.None? then None else Some([first] + rest.value)
  }

  /** What sshd takes from a key line with options: the options and the key. */
  function KeyLine(line: string, rule: EscapeRule): Option<(seq<SshOption>, string)> {
    match OptionsField(line, false, rule)
    case None => None
    case Some((field, key)) =>
      match Options(field, rule)
      case None => None
      case Some(options) => Some((options, key))
  }

  /** The options take every permission from the key, give a terminal back, and force the command. */
  predicate Forces(options: seq<SshOption>, command: string) {
    options == [Flag("restrict"), Flag("pty"), Setting("command", command)]
  }

  // ---------- the shell undoes the shell quoting ----------

  lemma {:induction false} SingleQuotedBody(value: string, word: string, rest: string)
    ensures Words(Replace(value, '\'', QUOTE_IN_QUOTES) + "'" + rest, Single, Some(word))
            == Words(rest, Plain, Some(word + value))
  {
    var body := Replace(value, '\'', QUOTE_IN_QUOTES) + "'" + rest;
    if value == "" {
      assert body == "'" + rest && word + value == word;
    } else {
      var tail := Replace(value[1..], '\'', QUOTE_IN_QUOTES) + "'" + rest;
      assert (word + [value[0]]) + value[1..] == word + value;
      SingleQuotedBody(value[1..], word + [value[0]], rest);
      if value[0] == '\'' {
        assert body == QUOTE_IN_QUOTES + tail;
        QuoteInQuotes(word, tail);
      } else {
        assert body == [value[0]] + tail;
      }
    }
  }

  /** Leaving the single quotes, adding a double-quoted single quote, and entering them again. */
  lemma QuoteInQuotes(word: string, tail: string)
    ensures Words(QUOTE_IN_QUOTES + tail, Single, Some(word)) == Words(tail, Single, Some(word + ['\'']))
  {
    var s0 := QUOTE_IN_QUOTES + tail;
    var s1 := s0[1..];
    var s2 := s1[1..];
    var s3 := s2[1..];
    var s4 := s3[1..];
    assert s0[0] == '\'' && s1[0] == '"' && s2[0] == '\'' && s3[0] == '"' && s4[0] == '\'' && s4[1..] == tail;
    assert Words(s0, Single, Some(word)) == Words(s1, Plain, Some(word));
    assert Words(s1, Plain, Some(word)) == Words(s2, Double, Some(word));
    assert Words(s2, Double, Some(word)) == Words(s3, Double, Some(word + ['\'']));
    assert Words(s3, Double, Some(word + ['\''])) == Words(s4, Plain, Some(word + ['\'']));
  }

  predicate IsLiteral(s: string) {
    s != "" && forall i :: 0 <= i < |s| ==>
      !NeedsQuoting(s[i]) && s[i] != ' ' && s[i] != '\t' && s[i] != '\'' && s[i] != '"' && s[i] != '\\'
  }

  lemma {:induction false} LiteralBody(value: string, word: Option<string>, rest: string)
    requires value == "" || IsLiteral(value)
    ensures Words(value + rest, Plain, word)
            == Words(rest, Plain, if value == "" then word else Some((if word.Some? then word.value else "") + value))
  {
    if value == "" {
      assert value + rest == rest;
    } else {
      var before := if word.Some? then word.value else "";
      assert (value + rest)[1..] == value[1..] + rest;
      assert (before + [value[0]]) + value[1..] == before + value;
      LiteralBody(value[1..], Some(before + [value[0]]), rest);
      if value[1..] == "" {
        assert before + [value[0]] == before + value;
      }
    }
  }

  /** One argument of a printed command: fixed text, or a quoted value. */
  datatype Arg = Fixed(text: string) | Value(text: string)

  function Printed(arg: Arg): string {
    if arg.Fixed? then arg.text else ShellQuoted(arg.text)
  }

  function PrintedCommand(args: seq<Arg>): string {
    Join(seq(|args|, i requires 0 <= i < |args| => Printed(args[i])), " ")
  }

  function Texts(args: seq<Arg>): seq<string> {
    seq(|args|, i requires 0 <= i < |args| => args[i].text)
  }

  ghost predicate FixedAreLiteral(args: seq<Arg>) {
    forall i :: 0 <= i < |args| && args[i].Fixed? ==> IsLiteral(args[i].text)
  }

  lemma ArgumentIsRead(arg: Arg, rest: string)
    requires arg.Fixed? ==> IsLiteral(arg.text)
    ensures Words(Printed(arg) + rest, Plain, None) == Words(rest, Plain, Some(arg.text))
  {
    assert "" + arg.text == arg.text;
    if arg.Fixed? {
      LiteralBody(arg.text, None, rest);
    } else {
      var body := Replace(arg.text, '\'', QUOTE_IN_QUOTES) + "'" + rest;
      assert Printed(arg) + rest == "'" + body;
      assert ("'" + body)[1..] == body;
      SingleQuotedBody(arg.text, "", rest);
    }
  }

  lemma PrintedCommandStep(args: seq<Arg>)
    requires |args| > 1
    ensures PrintedCommand(args) == Printed(args[0]) + " " + PrintedCommand(args[1..])
  {
    var parts := seq(|args|, i requires 0 <= i < |args| => Printed(args[i]));
    var tail := args[1..];
    assert parts[1..] == seq(|tail|, i requires 0 <= i < |tail| => Printed(tail[i]));
  }

  lemma TextsStep(args: seq<Arg>)
    requires args != []
    ensures Texts(args) == [args[0].text] + Texts(args[1..])
  {}

  /** The shell reads a printed command back as exactly its arguments. */
  lemma {:induction false} CommandIsRead(args: seq<Arg>)
    requires args != [] && FixedAreLiteral(args)
    ensures ShellWords(PrintedCommand(args)) == Some(Texts(args))
  {
    if |args| == 1 {
      ArgumentIsRead(args[0], "");
      assert PrintedCommand(args) == Printed(args[0]) == Printed(args[0]) + "";
      assert [args[0].text] + [] == Texts(args);
    } else {
      PrintedCommandStep(args);
      TextsStep(args);
      CommandIsRead(args[1..]);
      var rest := " " + PrintedCommand(args[1..]);
      ArgumentIsRead(args[0], rest);
      assert PrintedCommand(args) == Printed(args[0]) + rest;
      assert rest[1..] == PrintedCommand(args[1..]);
    }
  }

  // ---------- sshd undoes the option quoting ----------

  function EscapedChar(c: char): string {
    if c == '\\' then "\\\\" else if c == '"' then "\\\"" else [c]
  }

  /** Both passes of the option printer at once. */
  function Escaped(s: string): string {
    if s == "" then "" else EscapedChar(s[0]) + Escaped(s[1..])
  }

  lemma {:induction false} ReplaceOfConcat(a: string, b: string, from: char, to: string)
    ensures Replace(a + b, from, to) == Replace(a, from, to) + Replace(b, from, to)
  {
    if a == "" {
      assert a + b == b;
    } else {
      var first := if a[0] == from then to else [a[0]];
      calc {
        Replace(a + b, from, to);
        { assert (a + b)[1..] == a[1..] + b; }
        first + Replace(a[1..] + b, from, to);
        { ReplaceOfConcat(a[1..], b, from, to); }
        first + (Replace(a[1..], from, to) + Replace(b, from, to));
        first + Replace(a[1..], from, to) + Replace(b, from, to);
        Replace(a, from, to) + Replace(b, from, to);
      }
    }
  }

  lemma {:induction false} TwoPassesEscape(s: string)
    ensures OptionQuoted(s) == "\"" + Escaped(s) + "\""
    ensures Replace(Replace(s, '\\', "\\\\"), '"', "\\\"") == Escaped(s)
  {
    if s != "" {
      TwoPassesEscape(s[1..]);
      var first := if s[0] == '\\' then "\\\\" else [s[0]];
      var rest := Replace(s[1..], '\\', "\\\\");
      ReplaceOfConcat(first, rest, '"', "\\\"");
      if s[0] == '\\' {
        assert Replace("\\\\", '"', "\\\"") == "\\\\" by {
          assert "\\\\"[1..] == "\\";
          assert "\\"[1..] == "";
        }
      } else {
        assert [s[0]][1..] == "";
      }
    }
  }

  function DoubledBackslashes(s: string): string { Replace(s, '\\', "\\\\") }

  predicate EndsInBackslash(s: string) { s != "" && s[|s| - 1] == '\\' }

  /** What each reader gets for an escaped text: the text itself, or for sshd the text with
      every backslash doubled. */
  function ReadAs(rule: EscapeRule, s: string): string {
    if rule == Symmetric then s else DoubledBackslashes(s)
  }

  lemma PrependTwice(a: string, b: string, r: Option<(string, string)>)
    ensures PrependTo(a, PrependTo(b, r)) == PrependTo(a + b, r)
  {
    if r.Some? {
      assert a + (b + r.value.0) == a + b + r.value.0;
    }
  }

  function ReadChar(rule: EscapeRule, c: char): string {
    if rule == QuoteOnly && c == '\\' then "\\\\" else [c]
  }

  /** An escaped text and its closing quote, one character at a time. */
  lemma EscapedStep(s: string, rest: string)
    requires s != ""
    ensures Escaped(s) + "\"" + rest == EscapedChar(s[0]) + (Escaped(s[1..]) + "\"" + rest)
  {}

  lemma EscapedFollows(s: string, rest: string, rule: EscapeRule)
    requires s != "" && (rule == QuoteOnly ==> !EndsInBackslash(s))
    ensures rule == QuoteOnly ==> !EndsInBackslash(s[1..])
    ensures Follows(s[0], Escaped(s[1..]) + "\"" + rest, rule)
  {
    if s[1..] != "" {
      assert s[1..][|s[1..]| - 1] == s[|s| - 1];
    }
  }

  /** After a backslash that sshd does not undo there is no quote. */
  predicate Follows(c: char, tail: string, rule: EscapeRule) {
    rule == QuoteOnly && c == '\\' ==> tail != "" && tail[0] != '"'
  }

  lemma CharacterIsRead(c: char, tail: string, rule: EscapeRule)
    requires Follows(c, tail, rule)
    ensures Unquoted(EscapedChar(c) + tail, rule) == PrependTo(ReadChar(rule, c), Unquoted(tail, rule))
  {
    var text := EscapedChar(c) + tail;
    if c == '\\' {
      assert text[1..] == "\\" + tail && text[2..] == tail && (text[1..])[1..] == tail;
      if rule == QuoteOnly {
        PrependTwice("\\", "\\", Unquoted(tail, rule));
        assert "\\" + "\\" == "\\\\";
      }
    } else if c == '"' {
      assert text[2..] == tail;
    } else {
      assert text[1..] == tail;
    }
  }

  lemma ReadStep(s: string, rule: EscapeRule)
    requires s != ""
    ensures ReadAs(rule, s) == ReadChar(rule, s[0]) + ReadAs(rule, s[1..])
  {
    assert [s[0]] + s[1..] == s;
  }

  lemma {:induction false} ValueIsRead(s: string, rest: string, rule: EscapeRule)
    requires rule == QuoteOnly ==> !EndsInBackslash(s)
    ensures Unquoted(Escaped(s) + "\"" + rest, rule) == Some((ReadAs(rule, s), rest))
  {
    if s == "" {
      assert Escaped(s) + "\"" + rest == "\"" + rest;
    } else {
      EscapedStep(s, rest);
      EscapedFollows(s, rest, rule);
      ValueIsRead(s[1..], rest, rule);
      ReadStep(s, rule);
      CharacterIsRead(s[0], Escaped(s[1..]) + "\"" + rest, rule);
    }
  }

  lemma CharacterIsScanned(c: char, tail: string, rule: EscapeRule)
    requires Follows(c, tail, rule)
    ensures OptionsField(EscapedChar(c) + tail, true, rule)
            == PrependTo(EscapedChar(c), OptionsField(tail, true, rule))
  {
    var text := EscapedChar(c) + tail;
    if c == '\\' {
      assert text[1..] == "\\" + tail && text[2..] == tail && (text[1..])[1..] == tail && text[..2] == "\\\\";
      if rule == QuoteOnly {
        assert !Escapes(rule, text) && !Escapes(rule, text[1..]);
        PrependTwice("\\", "\\", OptionsField(tail, true, rule));
        assert "\\" + "\\" == "\\\\";
      }
    } else if c == '"' {
      assert text[2..] == tail && text[..2] == "\\\"";
    } else {
      assert text[1..] == tail;
    }
  }

  lemma {:induction false} QuotedFieldIsScanned(s: string, rest: string, rule: EscapeRule)
    requires rule == QuoteOnly ==> !EndsInBackslash(s)
    ensures OptionsField(Escaped(s) + "\"" + rest, true, rule)
            == PrependTo(Escaped(s) + "\"", OptionsField(rest, false, rule))
  {
    if s == "" {
      assert Escaped(s) + "\"" + rest == "\"" + rest;
      assert "" + "\"" == "\"";
    } else {
      EscapedStep(s, rest);
      EscapedFollows(s, rest, rule);
      QuotedFieldIsScanned(s[1..], rest, rule);
      CharacterIsScanned(s[0], Escaped(s[1..]) + "\"" + rest, rule);
      PrependTwice(EscapedChar(s[0]), Escaped(s[1..]) + "\"", OptionsField(rest, false, rule));
      assert EscapedChar(s[0]) + (Escaped(s[1..]) + "\"") == Escaped(s) + "\"";
    }
  }

  predicate PlainOptionText(s: string) {
    forall i :: 0 <= i < |s| ==> s[i] != ' ' && s[i] != '\t' && s[i] != '"' && s[i] != '\\'
  }

  lemma {:induction false} PlainFieldIsScanned(s: string, rest: string, rule: EscapeRule)
    requires PlainOptionText(s)
    ensures OptionsField(s + rest, false, rule) == PrependTo(s, OptionsField(rest, false, rule))
  {
    if s == "" {
      var field := OptionsField(rest, false, rule);
      assert s + rest == rest && (field.Some? ==> "" + field.value.0 == field.value.0);
    } else {
      PlainFieldIsScanned(s[1..], rest, rule);
      assert (s + rest)[1..] == s[1..] + rest;
      PrependTwice([s[0]], s[1..], OptionsField(rest, false, rule));
      assert [s[0]] + s[1..] == s;
    }
  }

  function PendingLine(command: string, key: string): string {
    OPTIONS_PREFIX + OptionQuoted(command) + " " + key
  }

  lemma QuoteOpens(body: string, rule: EscapeRule)
    ensures OptionsField("\"" + body, false, rule) == PrependTo("\"", OptionsField(body, true, rule))
  {
    assert ("\"" + body)[1..] == body;
  }

  lemma BlankEnds(key: string, rule: EscapeRule)
    ensures OptionsField(" " + key, false, rule) == Some(("", key))
  {
    assert (" " + key)[1..] == key;
  }

  lemma LineParts(prefix: string, text: string, key: string)
    ensures prefix + ("\"" + text + "\"") + " " + key == prefix + ("\"" + (text + "\"" + (" " + key)))
    ensures prefix + ("\"" + (text + "\"" + "")) == prefix + ("\"" + text + "\"")
  {}

  /** The field ends after the closing quote, whatever plain text comes before the value. */
  lemma FieldOfOption(prefix: string, command: string, key: string, rule: EscapeRule)
    requires PlainOptionText(prefix)
    requires rule == QuoteOnly ==> !EndsInBackslash(command)
    ensures OptionsField(prefix + OptionQuoted(command) + " " + key, false, rule)
            == Some((prefix + OptionQuoted(command), key))
  {
    TwoPassesEscape(command);
    var text := Escaped(command);
    var body := text + "\"" + (" " + key);
    LineParts(prefix, text, key);
    PlainFieldIsScanned(prefix, "\"" + body, rule);
    QuoteOpens(body, rule);
    QuotedFieldIsScanned(command, " " + key, rule);
    BlankEnds(key, rule);
  }

  lemma PrefixIsPlain()
    ensures PlainOptionText(OPTIONS_PREFIX)
  {}

  lemma OptionsFieldOfPendingLine(command: string, key: string, rule: EscapeRule)
    requires rule == QuoteOnly ==> !EndsInBackslash(command)
    ensures OptionsField(PendingLine(command, key), false, rule) == Some((OPTIONS_PREFIX + OptionQuoted(command), key))
  {
    PrefixIsPlain();
    FieldOfOption(OPTIONS_PREFIX, command, key, rule);
  }

  lemma {:induction false} NameEnds(name: string, rest: string)
    requires ',' !in name && '=' !in name && rest != "" && (rest[0] == ',' || rest[0] == '=')
    ensures OptionName(name + rest) == (name, rest)
  {
    if name == "" {
      assert name + rest == rest;
    } else {
      NameEnds(name[1..], rest);
      assert (name + rest)[1..] == name[1..] + rest;
      assert [name[0]] + name[1..] == name;
    }
  }

  lemma FlagIsRead(name: string, rest: string, rule: EscapeRule)
    requires ',' !in name && '=' !in name
    ensures Options(name + ("," + rest), rule) == FirstOption(Flag(name), Options(rest, rule))
  {
    NameEnds(name, "," + rest);
    assert ("," + rest)[1..] == rest;
  }

  lemma QuotedIsRead(value: string, rule: EscapeRule)
    requires rule == QuoteOnly ==> !EndsInBackslash(value)
    ensures OptionQuoted(value) != "" && OptionQuoted(value)[0] == '"'
    ensures Unquoted(OptionQuoted(value)[1..], rule) == Some((ReadAs(rule, value), ""))
  {
    TwoPassesEscape(value);
    assert OptionQuoted(value)[1..] == Escaped(value) + "\"" + "";
    ValueIsRead(value, "", rule);
  }

  lemma SettingIsRead(name: string, value: string, rule: EscapeRule)
    requires ',' !in name && '=' !in name && (rule == QuoteOnly ==> !EndsInBackslash(value))
    ensures Options(name + ("=" + OptionQuoted(value)), rule) == Some([Setting(name, ReadAs(rule, value))])
  {
    QuotedIsRead(value, rule);
    QuotedOption(name, OptionQuoted(value), rule);
  }

  lemma QuotedOption(name: string, quoted: string, rule: EscapeRule)
    requires ',' !in name && '=' !in name && quoted != "" && quoted[0] == '"'
    requires Unquoted(quoted[1..], rule).Some? && Unquoted(quoted[1..], rule).value.1 == ""
    ensures Options(name + ("=" + quoted), rule) == Some([Setting(name, Unquoted(quoted[1..], rule).value.0)])
  {
    NameEnds(name, "=" + quoted);
    assert ("=" + quoted)[2..] == quoted[1..];
  }

  lemma OptionsAreRead(command: string, rule: EscapeRule)
    requires rule == QuoteOnly ==> !EndsInBackslash(command)
    ensures Options(OPTIONS_PREFIX + OptionQuoted(command), rule).Some?
    ensures Forces(Options(OPTIONS_PREFIX + OptionQuoted(command), rule).value, ReadAs(rule, command))
  {
    var last := "command" + ("=" + OptionQuoted(command));
    ThreeOptions(OptionQuoted(command));
    FlagIsRead("restrict", "pty" + ("," + last), rule);
    FlagIsRead("pty", last, rule);
    SettingIsRead("command", command, rule);
  }

  lemma ThreeOptions(quoted: string)
    ensures OPTIONS_PREFIX + quoted == "restrict" + ("," + ("pty" + ("," + ("command" + ("=" + quoted)))))
  {}

  /** The reader of the line gets back the key, and options that restrict it, give it a terminal and
      force the command, as that reader unescapes it. */
  lemma PendingLineIsRead(command: string, key: string, rule: EscapeRule)
    requires rule == QuoteOnly ==> !EndsInBackslash(command)
    ensures var read := KeyLine(PendingLine(command, key), rule);
            read.Some? && Forces(read.value.0, ReadAs(rule, command)) && read.value.1 == key
  {
    OptionsFieldOfPendingLine(command, key, rule);
    OptionsAreRead(command, rule);
  }

  // ---------- doubled backslashes inside a command ----------

  lemma {:induction false} DoublingCommutesWithQuoting(s: string)
    ensures DoubledBackslashes(Replace(s, '\'', QUOTE_IN_QUOTES))
            == Replace(DoubledBackslashes(s), '\'', QUOTE_IN_QUOTES)
  {
    if s != "" {
      DoublingCommutesWithQuoting(s[1..]);
      var head := if s[0] == '\'' then QUOTE_IN_QUOTES else [s[0]];
      ReplaceOfConcat(head, Replace(s[1..], '\'', QUOTE_IN_QUOTES), '\\', "\\\\");
      var doubled := if s[0] == '\\' then "\\\\" else [s[0]];
      ReplaceOfConcat(doubled, DoubledBackslashes(s[1..]), '\'', QUOTE_IN_QUOTES);
      NoChange(QUOTE_IN_QUOTES, '\\', "\\\\");
      NoChange("\\\\", '\'', QUOTE_IN_QUOTES);
      assert [s[0]][1..] == "";
    }
  }

  lemma {:induction false} NoChange(s: string, from: char, to: string)
    requires from !in s
    ensures Replace(s, from, to) == s
  {
    if s != "" {
      NoChange(s[1..], from, to);
      assert [s[0]] + s[1..] == s;
    }
  }

  lemma DoublingQuoted(s: string)
    ensures DoubledBackslashes(ShellQuoted(s)) == ShellQuoted(DoubledBackslashes(s))
  {
    var body := Replace(s, '\'', QUOTE_IN_QUOTES);
    ReplaceOfConcat("'", body + "'", '\\', "\\\\");
    ReplaceOfConcat(body, "'", '\\', "\\\\");
    NoChange("'", '\\', "\\\\");
    assert "'" + body + "'" == "'" + (body + "'");
    DoublingCommutesWithQuoting(s);
  }

  function Doubled(args: seq<Arg>): seq<Arg> {
    seq(|args|, i requires 0 <= i < |args| =>
      if args[i].Fixed? then args[i] else Value(DoubledBackslashes(args[i].text)))
  }

  lemma DoublingJoined(first: string, rest: string)
    ensures DoubledBackslashes(first + " " + rest) == DoubledBackslashes(first) + " " + DoubledBackslashes(rest)
  {
    ReplaceOfConcat(first + " ", rest, '\\', "\\\\");
    ReplaceOfConcat(first, " ", '\\', "\\\\");
    NoChange(" ", '\\', "\\\\");
  }

  lemma {:induction false} DoublingCommand(args: seq<Arg>)
    requires args != [] && FixedAreLiteral(args)
    ensures DoubledBackslashes(PrintedCommand(args)) == PrintedCommand(Doubled(args))
  {
    DoublingArgument(args[0]);
    if |args| == 1 {
      assert PrintedCommand(args) == Printed(args[0]);
      assert PrintedCommand(Doubled(args)) == Printed(Doubled(args)[0]);
    } else {
      PrintedCommandStep(args);
      PrintedCommandStep(Doubled(args));
      assert Doubled(args)[1..] == Doubled(args[1..]);
      DoublingCommand(args[1..]);
      DoublingJoined(Printed(args[0]), PrintedCommand(args[1..]));
    }
  }

  lemma DoublingArgument(arg: Arg)
    requires arg.Fixed? ==> IsLiteral(arg.text)
    ensures DoubledBackslashes(Printed(arg))
            == Printed(if arg.Fixed? then arg else Value(DoubledBackslashes(arg.text)))
  {
    if arg.Fixed? {
      NoChange(arg.text, '\\', "\\\\");
    } else {
      DoublingQuoted(arg.text);
    }
  }

  lemma {:induction false} DoublingChangesExactlyBackslashes(s: string)
    ensures DoubledBackslashes(s) == s <==> '\\' !in s
    ensures |DoubledBackslashes(s)| >= |s|
    ensures '\\' in s ==> |DoubledBackslashes(s)| > |s|
  {
    if s != "" {
      DoublingChangesExactlyBackslashes(s[1..]);
      assert s == [s[0]] + s[1..];
    }
  }

  /** sshd and the shell together: each argument arrives with its backslashes doubled, so the
      command arrives as intended exactly if no argument holds a backslash. */
  lemma SshdCommandIsRead(args: seq<Arg>)
    requires args != [] && FixedAreLiteral(args)
    ensures ShellWords(DoubledBackslashes(PrintedCommand(args))) == Some(Texts(Doubled(args)))
    ensures Texts(Doubled(args)) == Texts(args) <==> forall i :: 0 <= i < |args| ==> '\\' !in args[i].text
  {
    DoublingCommand(args);
    CommandIsRead(Doubled(args));
    var doubled, plain := Texts(Doubled(args)), Texts(args);
    forall i | 0 <= i < |args| ensures doubled[i] == plain[i] <==> '\\' !in args[i].text {
      DoublingChangesExactlyBackslashes(args[i].text);
    }
    if forall i :: 0 <= i < |args| ==> '\\' !in args[i].text {
      assert doubled == plain;
    }
  }
}
