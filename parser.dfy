/**
 * `Parser`: content is matched against the pattern synthesised from a
 * template, and the values of the named groups are collected, placeholder
 * by placeholder, into a dictionary of lists. The regular-expression engine
 * is a parameter: a matcher that, given an input and a pattern, yields the
 * matches it enumerates and, possibly, the exception it raises after them.
 */
module Parsing {
  import opened Wrappers
  import opened TextOps
  import opened Patterns
  import opened Mt940Templates
  import TemplateTexts
  import opened Lists

  /** The exceptions the parser tells apart: the `Argument*` family, and every other kind. */
  datatype ExceptionKind = ArgumentFamily | Other

  /**
   * One match: the values of the named groups that succeeded, and the
   * captures of the repeated `RecurringSection` group, in capture order.
   */
  datatype Match = Match(groups: map<string, string>, captures: seq<string>)

  /** What enumerating the matches yields: the matches, then possibly an exception. */
  datatype MatchRun = MatchRun(matches: seq<Match>, failure: Option<ExceptionKind>)

  type Matcher = (string, string) -> MatchRun

  /** The failure of `Parse`: a `ParsingException` for the content and pattern, or an exception passed on. */
  datatype ParseError = ParsingError(content: string, pattern: string) | Unhandled

  /** A value stored under a placeholder name. */
  datatype Entry = Entry(key: string, value: string)

  type Table = map<string, seq<string>>

  // ---------------------------------------------------------------- the table

  /** The list stored under a key, empty when the key is absent. */
  function Get(t: Table, key: string): seq<string> {
    if key in t then t[key] else []
  }

  /** The table after one value is added under a key: a new key starts a new list. */
  function Added(t: Table, key: string, value: string): (r: Table)
    ensures r.Keys == t.Keys + {key}
    ensures r[key] == Get(t, key) + [value]
    ensures forall k :: k in t && k != key ==> r[k] == t[k]
  {
    t[key := Get(t, key) + [value]]
  }

  /** The table after each entry of a log is added in turn. */
  function Apply(t: Table, log: seq<Entry>): Table
    decreases |log|
  {
    if log == [] then t
    else
      var e := log[|log| - 1];
      Added(Apply(t, log[..|log| - 1]), e.key, e.value)
  }

  /** The values a log holds for one key, in log order. */
  function ValuesFor(log: seq<Entry>, key: string): seq<string>
    decreases |log|
  {
    if log == [] then []
    else ValuesFor(log[..|log| - 1], key) + (if log[|log| - 1].key == key then [log[|log| - 1].value] else [])
  }

  /** Some entry of the log names the key. */
  predicate Names(log: seq<Entry>, key: string) {
    exists i :: 0 <= i < |log| && log[i].key == key
  }

  /** The log names a key when its front does or its last entry does. */
  lemma NamesStep(log: seq<Entry>, key: string)
    requires log != []
    ensures Names(log, key) <==> Names(log[..|log| - 1], key) || log[|log| - 1].key == key
  {
    var n := |log| - 1;
    if Names(log, key) {
      var i :| 0 <= i < |log| && log[i].key == key;
      if i < n {
        assert log[..n][i] == log[i];
      }
    }
    if Names(log[..n], key) {
      var i :| 0 <= i < n && log[..n][i].key == key;
      assert log[i] == log[..n][i];
    }
  }

  /** A key is in the table exactly when it was there before or some entry names it. */
  lemma {:induction false} ApplyKeys(t: Table, log: seq<Entry>)
    ensures forall k :: k in Apply(t, log) <==> k in t || Names(log, k)
    decreases |log|
  {
    if log != [] {
      var n := |log| - 1;
      ApplyKeys(t, log[..n]);
      forall k ensures k in Apply(t, log) <==> k in t || Names(log, k) {
        NamesStep(log, k);
      }
    }
  }

  /** Each key's list is its old list followed by the values of the entries that name it, in order. */
  lemma {:induction false} ApplyValues(t: Table, log: seq<Entry>)
    ensures forall k :: Get(Apply(t, log), k) == Get(t, k) + ValuesFor(log, k)
    decreases |log|
  {
    if log != [] {
      var n := |log| - 1;
      ApplyValues(t, log[..n]);
      forall k ensures Get(Apply(t, log), k) == Get(t, k) + ValuesFor(log, k) {
        AddedGet(Apply(t, log[..n]), log[n].key, log[n].value, k);
      }
    }
  }

  /** Reading one key after an addition: the value is appended only under the key added to. */
  lemma AddedGet(t: Table, key: string, value: string, k: string)
    ensures Get(Added(t, key, value), k) == Get(t, k) + (if key == k then [value] else [])
  {
  }

  /** A log holds values for a key exactly when one of its entries names the key. */
  lemma {:induction false} ValuesForNonEmpty(log: seq<Entry>, key: string)
    ensures ValuesFor(log, key) != [] <==> Names(log, key)
    decreases |log|
  {
    if log != [] {
      ValuesForNonEmpty(log[..|log| - 1], key);
      NamesStep(log, key);
    }
  }

  lemma {:induction false} ValuesForConcat(a: seq<Entry>, b: seq<Entry>, key: string)
    ensures ValuesFor(a + b, key) == ValuesFor(a, key) + ValuesFor(b, key)
    decreases |b|
  {
    if b == [] {
      assert a + b == a;
    } else {
      var n := |b| - 1;
      assert (a + b)[..|a + b| - 1] == a + b[..n];
      ValuesForConcat(a, b[..n], key);
    }
  }

  /** Adding two logs one after the other is adding their concatenation. */
  lemma {:induction false} ApplyConcat(t: Table, a: seq<Entry>, b: seq<Entry>)
    ensures Apply(t, a + b) == Apply(Apply(t, a), b)
    decreases |b|
  {
    if b == [] {
      assert a + b == a;
    } else {
      var n := |b| - 1;
      assert (a + b)[..|a + b| - 1] == a + b[..n];
      ApplyConcat(t, a, b[..n]);
    }
  }

  lemma ConcatEmpty(a: seq<Entry>)
    ensures a + [] == a
  {
  }

  lemma ConcatAssoc(a: seq<Entry>, b: seq<Entry>, c: seq<Entry>)
    ensures a + b + c == a + (b + c)
  {
  }

  lemma ApplyOne(t: Table, log: seq<Entry>, e: Entry)
    ensures Apply(t, log + [e]) == Added(Apply(t, log), e.key, e.value)
  {
    assert (log + [e])[..|log|] == log;
  }

  // ------------------------------------------------------- what gets stored

  /** A group value as stored: trimmed, with the line-break marker turned back into a line feed. */
  function Clean(value: string): string {
    ReplaceAll(Trim(value), NewLine, "\n")
  }

  /** The entries one match contributes for the listed names whose group succeeded, in list order. */
  function Emitted(groups: map<string, string>, names: seq<string>): seq<Entry>
    decreases |names|
  {
    if names == [] then []
    else
      var name := names[|names| - 1];
      Emitted(groups, names[..|names| - 1]) +
        (if name in groups then [Entry(name, Clean(groups[name]))] else [])
  }

  /** The entries of a sequence of matches, match after match. */
  function MatchesEmitted(matches: seq<Match>, names: seq<string>): seq<Entry>
    decreases |matches|
  {
    if matches == [] then []
    else MatchesEmitted(matches[..|matches| - 1], names) + Emitted(matches[|matches| - 1].groups, names)
  }

  lemma MatchesEmittedStep(matches: seq<Match>, i: nat, names: seq<string>)
    requires i < |matches|
    ensures MatchesEmitted(matches[..i + 1], names) ==
      MatchesEmitted(matches[..i], names) + Emitted(matches[i].groups, names)
  {
    assert matches[..i + 1][..i] == matches[..i];
  }

  /** `BuildRecurringPattern`: the pattern of the recurring part, over all placeholders. */
  function RecurringPattern(template: Mt940Template): string {
    Synthesize(template.recurringTemplate, template.placeholders)
  }

  /**
   * What one recurring capture contributes: the entries of its matches
   * against the recurring pattern, or `None` when the matching raised an
   * `Argument*` exception. Any other exception is swallowed, and the entries
   * of the matches before it are kept.
   */
  function RecurringData(capture: string, template: Mt940Template, matcher: Matcher): Option<seq<Entry>> {
    var run := matcher(capture, RecurringPattern(template));
    if run.failure == Some(ArgumentFamily) then None
    else Some(MatchesEmitted(run.matches, template.placeholders))
  }

  /** The entries of the captures in turn, or `None` from the first capture that fails. */
  function CapturesData(captures: seq<string>, template: Mt940Template, matcher: Matcher): Option<seq<Entry>>
    decreases |captures|
  {
    if captures == [] then Some([])
    else
      match CapturesData(captures[..|captures| - 1], template, matcher)
      case None => None
      case Some(log) =>
        match RecurringData(captures[|captures| - 1], template, matcher)
        case None => None
        case Some(more) => Some(log + more)
  }

  /** One outer match: its outer placeholders first, then its recurring captures. */
  function MatchData(m: Match, template: Mt940Template, matcher: Matcher): Option<seq<Entry>> {
    match CapturesData(m.captures, template, matcher)
    case None => None
    case Some(log) => Some(Emitted(m.groups, template.outerPlaceholders) + log)
  }

  /** The outer matches in turn, or `None` from the first one whose recurring part fails. */
  function MatchesData(matches: seq<Match>, template: Mt940Template, matcher: Matcher): Option<seq<Entry>>
    decreases |matches|
  {
    if matches == [] then Some([])
    else
      match MatchesData(matches[..|matches| - 1], template, matcher)
      case None => None
      case Some(log) =>
        match MatchData(matches[|matches| - 1], template, matcher)
        case None => None
        case Some(more) => Some(log + more)
  }

  /** Line breaks of the content, CRLF first and then LF, turned into the marker. */
  function NormalizeContent(content: string): string {
    ReplaceAll(ReplaceAll(content, TemplateTexts.CrLf, NewLine), TemplateTexts.Lf, NewLine)
  }

  /** The normalised content holds no line feed: every line break is the marker. */
  lemma ContentHasNoLineFeed(content: string)
    ensures '\n' !in NormalizeContent(content)
  {
    assert TemplateTexts.Lf == ['\n'];
    ReplaceAllRemovesChar(ReplaceAll(content, TemplateTexts.CrLf, NewLine), '\n', NewLine);
  }

  /**
   * Turning the marker back into a line feed, as each stored value is,
   * undoes the normalisation of content without braces up to line endings:
   * each CRLF and each LF comes back as one LF.
   */
  lemma {:induction false} RestoreLineBreaks(s: string)
    requires '{' !in s
    ensures ReplaceAll(NormalizeContent(s), NewLine, "\n") == TemplateTexts.NormalizeLineEndings(s)
    decreases |s|
  {
    if s != [] {
      RestoreLineBreaks(s[1..]);
      if TemplateTexts.CrLf <= s {
        RestoreLineBreaks(s[2..]);
        RestoreAfterCrLf(s);
      } else if s[0] == '\n' {
        RestoreAfterLf(s);
      } else {
        RestoreAfterOther(s);
      }
    }
  }

  lemma RestoreAfterCrLf(s: string)
    requires '{' !in s && TemplateTexts.CrLf <= s
    requires ReplaceAll(NormalizeContent(s[2..]), NewLine, "\n") == TemplateTexts.NormalizeLineEndings(s[2..])
    ensures ReplaceAll(NormalizeContent(s), NewLine, "\n") == TemplateTexts.NormalizeLineEndings(s)
  {
    var n1 := ReplaceAll(s[2..], TemplateTexts.CrLf, NewLine);
    assert ReplaceAll(s, TemplateTexts.CrLf, NewLine) == NewLine + n1;
    ReplaceAllPlainPrefix(NewLine, n1, TemplateTexts.Lf, NewLine);
    ReplaceAllAtFront(ReplaceAll(n1, TemplateTexts.Lf, NewLine), NewLine, "\n");
  }

  lemma RestoreAfterLf(s: string)
    requires '{' !in s && s != [] && s[0] == '\n'
    requires ReplaceAll(NormalizeContent(s[1..]), NewLine, "\n") == TemplateTexts.NormalizeLineEndings(s[1..])
    ensures ReplaceAll(NormalizeContent(s), NewLine, "\n") == TemplateTexts.NormalizeLineEndings(s)
  {
    var n1 := ReplaceAll(s[1..], TemplateTexts.CrLf, NewLine);
    assert !(TemplateTexts.CrLf <= s);
    assert ReplaceAll(s, TemplateTexts.CrLf, NewLine) == ['\n'] + n1;
    assert ['\n'] + n1 == TemplateTexts.Lf + n1;
    ReplaceAllAtFront(n1, TemplateTexts.Lf, NewLine);
    ReplaceAllAtFront(ReplaceAll(n1, TemplateTexts.Lf, NewLine), NewLine, "\n");
  }

  lemma RestoreAfterOther(s: string)
    requires '{' !in s && s != [] && s[0] != '\n' && !(TemplateTexts.CrLf <= s)
    requires ReplaceAll(NormalizeContent(s[1..]), NewLine, "\n") == TemplateTexts.NormalizeLineEndings(s[1..])
    ensures ReplaceAll(NormalizeContent(s), NewLine, "\n") == TemplateTexts.NormalizeLineEndings(s)
  {
    var n1 := ReplaceAll(s[1..], TemplateTexts.CrLf, NewLine);
    assert ReplaceAll(s, TemplateTexts.CrLf, NewLine) == [s[0]] + n1;
    ReplaceAllPlainPrefix([s[0]], n1, TemplateTexts.Lf, NewLine);
    assert s[0] in s;
    ReplaceAllPlainPrefix([s[0]], ReplaceAll(n1, TemplateTexts.Lf, NewLine), NewLine, "\n");
  }

  /** The outer pattern of a template. */
  function OuterPattern(template: Mt940Template): string {
    Synthesize(template.templateText, template.placeholders)
  }

  /** The outer matching: the normalised content against the outer pattern. */
  function OuterRun(content: string, template: Mt940Template, matcher: Matcher): MatchRun {
    matcher(NormalizeContent(content), OuterPattern(template))
  }

  /**
   * What `Parse` returns: the table of the whole log when nothing failed; a
   * `ParsingException` for the original content and the outer pattern when a
   * recurring part or the outer matching raised an `Argument*` exception; and
   * any other exception of the outer matching passed on.
   */
  function ParseSpec(content: string, template: Mt940Template, matcher: Matcher): Result<Table, ParseError> {
    var regex := OuterPattern(template);
    var run := OuterRun(content, template, matcher);
    match MatchesData(run.matches, template, matcher)
    case None => Failure(ParsingError(content, regex))
    case Some(log) =>
      match run.failure
      case None => Success(Apply(map[], log))
      case Some(ArgumentFamily) => Failure(ParsingError(content, regex))
      case Some(Other) => Failure(Unhandled)
  }

  /** Once a prefix of the captures fails, all of them fail. */
  lemma {:induction false} CapturesStopAtFailure(captures: seq<string>, n: nat, template: Mt940Template, matcher: Matcher)
    requires n <= |captures| && CapturesData(captures[..n], template, matcher).None?
    ensures CapturesData(captures, template, matcher).None?
    decreases |captures| - n
  {
    if n < |captures| {
      assert captures[..n + 1][..n] == captures[..n];
      CapturesStopAtFailure(captures, n + 1, template, matcher);
    } else {
      assert captures[..n] == captures;
    }
  }

  /** Once a prefix of the outer matches fails, all of them fail. */
  lemma {:induction false} MatchesStopAtFailure(matches: seq<Match>, n: nat, template: Mt940Template, matcher: Matcher)
    requires n <= |matches| && MatchesData(matches[..n], template, matcher).None?
    ensures MatchesData(matches, template, matcher).None?
    decreases |matches| - n
  {
    if n < |matches| {
      assert matches[..n + 1][..n] == matches[..n];
      MatchesStopAtFailure(matches, n + 1, template, matcher);
    } else {
      assert matches[..n] == matches;
    }
  }

  /** One more capture that succeeds extends the captures' entries by its own. */
  lemma CapturesStep(captures: seq<string>, c: nat, template: Mt940Template, matcher: Matcher)
    requires c < |captures| && CapturesData(captures[..c], template, matcher).Some?
    requires RecurringData(captures[c], template, matcher).Some?
    ensures CapturesData(captures[..c + 1], template, matcher) ==
      Some(CapturesData(captures[..c], template, matcher).value + RecurringData(captures[c], template, matcher).value)
  {
    assert captures[..c + 1][..c] == captures[..c];
  }

  /** One more outer match that succeeds extends the entries by its own. */
  lemma MatchesStep(matches: seq<Match>, i: nat, template: Mt940Template, matcher: Matcher)
    requires i < |matches| && MatchesData(matches[..i], template, matcher).Some?
    requires CapturesData(matches[i].captures, template, matcher).Some?
    ensures MatchesData(matches[..i + 1], template, matcher) ==
      Some(MatchesData(matches[..i], template, matcher).value +
        (Emitted(matches[i].groups, template.outerPlaceholders) + CapturesData(matches[i].captures, template, matcher).value))
  {
    assert matches[..i + 1][..i] == matches[..i];
  }

  /** A capture of an outer match that fails makes the whole run fail. */
  lemma CaptureFailureStops(matches: seq<Match>, i: nat, c: nat, template: Mt940Template, matcher: Matcher)
    requires i < |matches| && c < |matches[i].captures|
    requires MatchesData(matches[..i], template, matcher).Some?
    requires CapturesData(matches[i].captures[..c], template, matcher).Some?
    requires RecurringData(matches[i].captures[c], template, matcher).None?
    ensures MatchesData(matches, template, matcher).None?
  {
    var captures := matches[i].captures;
    assert captures[..c + 1][..c] == captures[..c];
    CapturesStopAtFailure(captures, c + 1, template, matcher);
    assert matches[..i + 1][..i] == matches[..i];
    MatchesStopAtFailure(matches, i + 1, template, matcher);
  }

  /** Some capture of some outer match raises an `Argument*` exception against the recurring pattern. */
  predicate RecurringFails(matches: seq<Match>, template: Mt940Template, matcher: Matcher) {
    exists i, c :: 0 <= i < |matches| && 0 <= c < |matches[i].captures| &&
      matcher(matches[i].captures[c], RecurringPattern(template)).failure == Some(ArgumentFamily)
  }

  /** The captures fail exactly when one of them does. */
  lemma {:induction false} CapturesDataFails(captures: seq<string>, template: Mt940Template, matcher: Matcher)
    ensures CapturesData(captures, template, matcher).None? <==>
      exists c :: 0 <= c < |captures| && RecurringData(captures[c], template, matcher).None?
    decreases |captures|
  {
    if captures != [] {
      var n := |captures| - 1;
      var front := captures[..n];
      CapturesDataFails(front, template, matcher);
      if CapturesData(front, template, matcher).None? {
        var c :| 0 <= c < n && RecurringData(front[c], template, matcher).None?;
        assert front[c] == captures[c];
        assert CapturesData(captures, template, matcher).None?;
      } else if RecurringData(captures[n], template, matcher).None? {
        assert CapturesData(captures, template, matcher).None?;
      } else {
        assert CapturesData(captures, template, matcher).Some?;
        forall c | 0 <= c < |captures| ensures RecurringData(captures[c], template, matcher).Some? {
          if c < n {
            assert front[c] == captures[c];
          }
        }
      }
    }
  }

  /** The outer matches fail exactly when a capture of one of them does. */
  lemma {:induction false} MatchesDataFails(matches: seq<Match>, template: Mt940Template, matcher: Matcher)
    ensures MatchesData(matches, template, matcher).None? <==> RecurringFails(matches, template, matcher)
    decreases |matches|
  {
    if matches != [] {
      var n := |matches| - 1;
      MatchesDataFails(matches[..n], template, matcher);
      CapturesDataFails(matches[n].captures, template, matcher);
      RecurringFailsStep(matches, template, matcher);
    }
  }

  /** The matches fail when their front does or a capture of the last one does. */
  lemma RecurringFailsStep(matches: seq<Match>, template: Mt940Template, matcher: Matcher)
    requires matches != []
    ensures var last := matches[|matches| - 1].captures;
      RecurringFails(matches, template, matcher) <==>
        || RecurringFails(matches[..|matches| - 1], template, matcher)
        || exists c :: 0 <= c < |last| && RecurringData(last[c], template, matcher).None?
  {
    var n := |matches| - 1;
    var front := matches[..n];
    if RecurringFails(matches, template, matcher) {
      var i, c :| 0 <= i < |matches| && 0 <= c < |matches[i].captures| &&
        matcher(matches[i].captures[c], RecurringPattern(template)).failure == Some(ArgumentFamily);
      if i < n {
        assert front[i] == matches[i];
      } else {
        assert RecurringData(matches[n].captures[c], template, matcher).None?;
      }
    }
    if RecurringFails(front, template, matcher) {
      var i, c :| 0 <= i < n && 0 <= c < |front[i].captures| &&
        matcher(front[i].captures[c], RecurringPattern(template)).failure == Some(ArgumentFamily);
      assert matches[i] == front[i];
    }
    var last := matches[n].captures;
    if exists c :: 0 <= c < |last| && RecurringData(last[c], template, matcher).None? {
      var c :| 0 <= c < |last| && RecurringData(last[c], template, matcher).None?;
      assert matcher(matches[n].captures[c], RecurringPattern(template)).failure == Some(ArgumentFamily);
    }
  }

  /**
   * How `Parse` ends: it succeeds exactly when no recurring capture and not
   * the outer matching raise an exception; a `ParsingException` for the
   * original content and the outer pattern when a recurring capture or the
   * outer matching raise an `Argument*` exception; any other exception of
   * the outer matching passed on. No match and no exception is an empty table.
   */
  lemma ParseOutcome(content: string, template: Mt940Template, matcher: Matcher)
    ensures ParseSpec(content, template, matcher).Success? <==>
      !RecurringFails(OuterRun(content, template, matcher).matches, template, matcher) &&
      OuterRun(content, template, matcher).failure.None?
    ensures ParseSpec(content, template, matcher) == Failure(ParsingError(content, OuterPattern(template))) <==>
      RecurringFails(OuterRun(content, template, matcher).matches, template, matcher) ||
      OuterRun(content, template, matcher).failure == Some(ArgumentFamily)
    ensures ParseSpec(content, template, matcher) == Failure(Unhandled) <==>
      !RecurringFails(OuterRun(content, template, matcher).matches, template, matcher) &&
      OuterRun(content, template, matcher).failure == Some(Other)
    ensures OuterRun(content, template, matcher) == MatchRun([], None) ==>
      ParseSpec(content, template, matcher) == Success(map[])
  {
    var run := OuterRun(content, template, matcher);
    MatchesDataFails(run.matches, template, matcher);
    ParseCases(content, template, matcher, run);
    var failed := ParsingError(content, OuterPattern(template));
    if MatchesData(run.matches, template, matcher).None? {
      assert ParseSpec(content, template, matcher) == Failure(failed);
    } else {
      var log := MatchesData(run.matches, template, matcher).value;
      match run.failure
      case None =>
        assert ParseSpec(content, template, matcher) == Success(Apply(map[], log));
      case Some(ArgumentFamily) =>
        assert ParseSpec(content, template, matcher) == Failure(failed);
      case Some(Other) =>
        assert ParseSpec(content, template, matcher) == Failure(Unhandled);
    }
  }

  lemma ParseCases(content: string, template: Mt940Template, matcher: Matcher, run: MatchRun)
    requires run == OuterRun(content, template, matcher)
    ensures MatchesData(run.matches, template, matcher).None? ==>
      ParseSpec(content, template, matcher) == Failure(ParsingError(content, OuterPattern(template)))
    ensures MatchesData(run.matches, template, matcher).Some? ==>
      ParseSpec(content, template, matcher) ==
        match run.failure
        case None => Success(Apply(map[], MatchesData(run.matches, template, matcher).value))
        case Some(ArgumentFamily) => Failure(ParsingError(content, OuterPattern(template)))
        case Some(Other) => Failure(Unhandled)
  {
  }

  /**
   * A successful table holds exactly the keys the entries name, each with
   * the values of its entries in order.
   */
  lemma ParseTable(content: string, template: Mt940Template, matcher: Matcher, t: Table)
    requires ParseSpec(content, template, matcher) == Success(t)
    ensures MatchesData(OuterRun(content, template, matcher).matches, template, matcher).Some?
    ensures var log := MatchesData(OuterRun(content, template, matcher).matches, template, matcher).value;
      forall k :: (k in t <==> ValuesFor(log, k) != []) && (Get(t, k) == ValuesFor(log, k))
  {
    var run := OuterRun(content, template, matcher);
    ParseCases(content, template, matcher, run);
    TableOfLog(MatchesData(run.matches, template, matcher).value);
  }

  /** The table built from an empty one: exactly the keys the log names, each with its values in order. */
  lemma TableOfLog(log: seq<Entry>)
    ensures forall k ::
      && (k in Apply(map[], log) <==> ValuesFor(log, k) != [])
      && Get(Apply(map[], log), k) == ValuesFor(log, k)
  {
    ApplyKeys(map[], log);
    ApplyValues(map[], log);
    forall k ensures k in Apply(map[], log) <==> ValuesFor(log, k) != [] {
      ValuesForNonEmpty(log, k);
    }
  }

  /** With distinct names, a match contributes exactly one value for each listed name whose group succeeded. */
  lemma {:induction false} EmittedValues(groups: map<string, string>, names: seq<string>, key: string)
    requires NoDuplicates(names)
    ensures ValuesFor(Emitted(groups, names), key) ==
      if key in names && key in groups then [Clean(groups[key])] else []
    decreases |names|
  {
    if names != [] {
      var n := |names| - 1;
      NoDuplicatesFront(names);
      EmittedValues(groups, names[..n], key);
      LastNotInFront(names);
      EmittedValuesStep(groups, names, key);
    }
  }

  /** The front of a sequence without duplicates has none either. */
  lemma NoDuplicatesFront(names: seq<string>)
    requires NoDuplicates(names) && names != []
    ensures NoDuplicates(names[..|names| - 1])
  {
    var n := |names| - 1;
    assert forall i :: 0 <= i < n ==> names[..n][i] == names[i];
  }

  /** One step of `EmittedValues`: the last name adds its value after those of the names before it. */
  lemma EmittedValuesStep(groups: map<string, string>, names: seq<string>, key: string)
    requires names != []
    requires names[|names| - 1] !in names[..|names| - 1]
    requires ValuesFor(Emitted(groups, names[..|names| - 1]), key) ==
      if key in names[..|names| - 1] && key in groups then [Clean(groups[key])] else []
    ensures ValuesFor(Emitted(groups, names), key) ==
      if key in names && key in groups then [Clean(groups[key])] else []
  {
    var n := |names| - 1;
    var front := names[..n];
    var name := names[n];
    var e := Emitted(groups, front);
    var tail := if name in groups then [Entry(name, Clean(groups[name]))] else [];
    var own := if name in groups && name == key then [Clean(groups[name])] else [];
    assert ValuesFor(Emitted(groups, names), key) == ValuesFor(e, key) + own by {
      assert Emitted(groups, names) == e + tail;
      ValuesForConcat(e, tail, key);
      ValuesForOne(groups, name, key);
    }
    InFrontOrLast(names, key);
  }

  /** With distinct names, the last name does not occur before it. */
  lemma LastNotInFront(names: seq<string>)
    requires NoDuplicates(names) && names != []
    ensures names[|names| - 1] !in names[..|names| - 1]
  {
    var n := |names| - 1;
    forall i | 0 <= i < n ensures names[..n][i] != names[n] {
      assert names[..n][i] == names[i];
    }
  }

  /** The values for a key in the entry one name contributes. */
  lemma ValuesForOne(groups: map<string, string>, name: string, key: string)
    ensures ValuesFor(if name in groups then [Entry(name, Clean(groups[name]))] else [], key) ==
      if name in groups && name == key then [Clean(groups[name])] else []
  {
    if name in groups {
      var one := [Entry(name, Clean(groups[name]))];
      assert one[..0] == [];
    }
  }

  /** A match without successful groups contributes nothing. */
  lemma {:induction false} EmittedNoGroups(names: seq<string>)
    ensures Emitted(map[], names) == []
    decreases |names|
  {
    if names != [] {
      EmittedNoGroups(names[..|names| - 1]);
    }
  }

  /**
   * One outer match without recurring captures: each distinct outer
   * placeholder whose group succeeded is stored with its single cleaned
   * value, and nothing else is stored.
   */
  lemma SingleOuterMatch(content: string, template: Mt940Template, matcher: Matcher, groups: map<string, string>)
    requires OuterRun(content, template, matcher) == MatchRun([Match(groups, [])], None)
    requires NoDuplicates(template.outerPlaceholders)
    ensures ParseSpec(content, template, matcher).Success?
    ensures var t := ParseSpec(content, template, matcher).value;
      forall k :: (k in t <==> k in template.outerPlaceholders && k in groups) &&
        (k in t ==> t[k] == [Clean(groups[k])])
  {
    var run := OuterRun(content, template, matcher);
    var m := Match(groups, []);
    var log := Emitted(groups, template.outerPlaceholders);
    assert run.matches[..0] == [];
    assert CapturesData([], template, matcher) == Some([]);
    ConcatEmpty(log);
    assert MatchesData(run.matches, template, matcher) == Some([] + log);
    assert [] + log == log;
    ParseCases(content, template, matcher, run);
    TableOfLog(log);
    forall k ensures ValuesFor(log, k) == if k in template.outerPlaceholders && k in groups then [Clean(groups[k])] else [] {
      EmittedValues(groups, template.outerPlaceholders, k);
    }
  }

  /** The cleaned values, in order. */
  function CleanAll(values: seq<string>): seq<string>
    decreases |values|
  {
    if values == [] then [] else CleanAll(values[..|values| - 1]) + [Clean(values[|values| - 1])]
  }

  /** The entries of one placeholder's cleaned values, in order. */
  function EntriesOf(p: string, values: seq<string>): seq<Entry>
    decreases |values|
  {
    if values == [] then [] else EntriesOf(p, values[..|values| - 1]) + [Entry(p, Clean(values[|values| - 1]))]
  }

  lemma {:induction false} EntriesOfValues(p: string, values: seq<string>, key: string)
    ensures ValuesFor(EntriesOf(p, values), key) == if key == p then CleanAll(values) else []
    decreases |values|
  {
    if values != [] {
      var n := |values| - 1;
      var front := EntriesOf(p, values[..n]);
      EntriesOfValues(p, values[..n], key);
      assert (front + [Entry(p, Clean(values[n]))])[..|front|] == front;
    }
  }

  lemma EntriesOfStep(p: string, values: seq<string>, c: nat)
    requires 0 < c <= |values|
    ensures EntriesOf(p, values[..c]) == EntriesOf(p, values[..c - 1]) + [Entry(p, Clean(values[c - 1]))]
  {
    assert values[..c][..c - 1] == values[..c - 1];
  }

  /** A capture that yields one match with one value for the only placeholder contributes that value. */
  lemma OneValueCapture(capture: string, value: string, p: string, template: Mt940Template, matcher: Matcher)
    requires template.placeholders == [p]
    requires matcher(capture, RecurringPattern(template)) == MatchRun([Match(map[p := value], [])], None)
    ensures RecurringData(capture, template, matcher) == Some([Entry(p, Clean(value))])
  {
    var run := matcher(capture, RecurringPattern(template));
    var g := map[p := value];
    var e := Entry(p, Clean(value));
    assert [p][..0] == [];
    assert Emitted(g, [p]) == Emitted(g, []) + [e];
    assert Emitted(g, [p]) == [e];
    assert run.matches == [Match(g, [])] && run.matches[..0] == [];
    assert MatchesEmitted(run.matches, [p]) == MatchesEmitted([], [p]) + Emitted(g, [p]);
    assert MatchesEmitted(run.matches, [p]) == [e];
  }

  /** Each capture that yields one match with one value for the placeholder adds that value. */
  lemma {:induction false} CapturesOfOneValue(captures: seq<string>, values: seq<string>, p: string,
      template: Mt940Template, matcher: Matcher, c: nat)
    requires template.placeholders == [p] && |captures| == |values| && c <= |captures|
    requires forall i :: 0 <= i < |captures| ==>
      matcher(captures[i], RecurringPattern(template)) == MatchRun([Match(map[p := values[i]], [])], None)
    ensures CapturesData(captures[..c], template, matcher) == Some(EntriesOf(p, values[..c]))
    decreases c
  {
    if c == 0 {
      assert captures[..0] == [] && values[..0] == [];
    } else {
      var k := c - 1;
      CapturesOfOneValue(captures, values, p, template, matcher, k);
      assert matcher(captures[k], RecurringPattern(template)) == MatchRun([Match(map[p := values[k]], [])], None);
      OneValueCapture(captures[k], values[k], p, template, matcher);
      CapturesStep(captures, k, template, matcher);
      EntriesOfStep(p, values, c);
    }
  }

  /** The entries of the recurring scenario: the outer match adds nothing itself, its captures their values. */
  lemma RecurringLog(content: string, template: Mt940Template, matcher: Matcher,
      p: string, captures: seq<string>, values: seq<string>)
    requires OuterRun(content, template, matcher) == MatchRun([Match(map[], captures)], None)
    requires template.placeholders == [p] && |captures| == |values|
    requires forall i :: 0 <= i < |captures| ==>
      matcher(captures[i], RecurringPattern(template)) == MatchRun([Match(map[p := values[i]], [])], None)
    ensures ParseSpec(content, template, matcher) == Success(Apply(map[], EntriesOf(p, values)))
  {
    var run := OuterRun(content, template, matcher);
    CapturesOfOneValue(captures, values, p, template, matcher, |captures|);
    assert captures[..|captures|] == captures && values[..|values|] == values;
    var log := EntriesOf(p, values);
    EmittedNoGroups(template.outerPlaceholders);
    assert run.matches[..0] == [];
    assert MatchesData(run.matches, template, matcher) == Some([] + ([] + log));
    assert [] + ([] + log) == log;
    ParseCases(content, template, matcher, run);
  }

  /**
   * The recurring part in use: one outer match whose repeated section was
   * captured N times, each capture yielding the placeholder's value once,
   * stores the N cleaned values under that placeholder in capture order.
   */
  lemma RecurringValuesInOrder(content: string, template: Mt940Template, matcher: Matcher,
      p: string, captures: seq<string>, values: seq<string>)
    requires OuterRun(content, template, matcher) == MatchRun([Match(map[], captures)], None)
    requires template.placeholders == [p] && |captures| == |values|
    requires forall i :: 0 <= i < |captures| ==>
      matcher(captures[i], RecurringPattern(template)) == MatchRun([Match(map[p := values[i]], [])], None)
    ensures ParseSpec(content, template, matcher) ==
      Success(if values == [] then map[] else map[p := CleanAll(values)])
  {
    RecurringLog(content, template, matcher, p, captures, values);
    OneKeyTable(p, values);
  }

  lemma OneKeyTable(p: string, values: seq<string>)
    ensures Apply(map[], EntriesOf(p, values)) == if values == [] then map[] else map[p := CleanAll(values)]
  {
    var log := EntriesOf(p, values);
    TableOfLog(log);
    var t := Apply(map[], log);
    var expected: Table := if values == [] then map[] else map[p := CleanAll(values)];
    forall k ensures (k in t <==> k in expected) && (k in t ==> t[k] == expected[k]) {
      EntriesOfValues(p, values, k);
      CleanAllLength(values);
    }
    assert t == expected;
  }

  lemma {:induction false} CleanAllLength(values: seq<string>)
    ensures |CleanAll(values)| == |values|
    decreases |values|
  {
    if values != [] {
      CleanAllLength(values[..|values| - 1]);
    }
  }

  // ------------------------------------------------------------ the methods

  /** The dictionary `Parse` fills in place. */
  class ResultTable {
    var entries: Table

    constructor()
      ensures entries == map[]
    {
      entries := map[];
    }

    /** `AddResult`: an absent key first gets an empty list; then the value is appended to the key's list. */
    method AddResult(placeholder: string, value: string)
      modifies this
      ensures entries == Added(old(entries), placeholder, value)
    {
      if placeholder !in entries {
        entries := entries[placeholder := []];
      }
      entries := entries[placeholder := entries[placeholder] + [value]];
    }
  }

  /** For each listed name whose group succeeded, in list order, its cleaned value is added. */
  method AddGroupValues(results: ResultTable, groups: map<string, string>, names: seq<string>)
    modifies results
    ensures results.entries == Apply(old(results.entries), Emitted(groups, names))
  {
    var j := 0;
    while j < |names|
      invariant 0 <= j <= |names|
      invariant results.entries == Apply(old(results.entries), Emitted(groups, names[..j]))
    {
      var placeholder := names[j];
      assert names[..j + 1][..j] == names[..j];
      if placeholder in groups {
        var value := Clean(groups[placeholder]);
        assert Emitted(groups, names[..j + 1]) == Emitted(groups, names[..j]) + [Entry(placeholder, value)];
        ApplyOne(old(results.entries), Emitted(groups, names[..j]), Entry(placeholder, value));
        results.AddResult(placeholder, value);
      } else {
        assert Emitted(groups, names[..j + 1]) == Emitted(groups, names[..j]) + [];
        ConcatEmpty(Emitted(groups, names[..j]));
      }
      j := j + 1;
    }
    assert names[..j] == names;
  }

  /**
   * `GetRecurringData`: the matches of one recurring capture against the
   * recurring pattern are added to the table; an `Argument*` exception
   * becomes a `ParsingException` for the capture and the recurring pattern.
   */
  method GetRecurringData(results: ResultTable, content: string, template: Mt940Template, matcher: Matcher)
    returns (error: Option<ParseError>)
    modifies results
    ensures error.None? <==> RecurringData(content, template, matcher).Some?
    ensures error.Some? ==> error.value == ParsingError(content, RecurringPattern(template))
    ensures error.None? ==>
      results.entries == Apply(old(results.entries), RecurringData(content, template, matcher).value)
  {
    var recurringPattern := BuildRegexFromTemplate(template.recurringTemplate, template.placeholders);
    var run := matcher(content, recurringPattern);
    var i := 0;
    while i < |run.matches|
      invariant 0 <= i <= |run.matches|
      invariant results.entries == Apply(old(results.entries), MatchesEmitted(run.matches[..i], template.placeholders))
    {
      ghost var before := MatchesEmitted(run.matches[..i], template.placeholders);
      ghost var step := Emitted(run.matches[i].groups, template.placeholders);
      AddGroupValues(results, run.matches[i].groups, template.placeholders);
      ApplyConcat(old(results.entries), before, step);
      MatchesEmittedStep(run.matches, i, template.placeholders);
      i := i + 1;
    }
    assert run.matches[..i] == run.matches;
    if run.failure == Some(ArgumentFamily) {
      var pattern := BuildRegexFromTemplate(template.recurringTemplate, template.placeholders);
      return Some(ParsingError(content, pattern));
    }
    return None;
  }

  /** `Parse`: the table of every value the outer and recurring matches yield, or the error. */
  method Parse(content: string, template: Mt940Template, matcher: Matcher) returns (r: Result<Table, ParseError>)
    ensures r == ParseSpec(content, template, matcher)
  {
    var result := new ResultTable();
    var regex := BuildRegexFromTemplate(template.templateText, template.placeholders);
    var contentClone := ReplaceAll(ReplaceAll(content, "\r\n", NewLine), "\n", NewLine);
    var run := matcher(contentClone, regex);
    ghost var log: seq<Entry> := [];
    var i := 0;
    while i < |run.matches|
      invariant 0 <= i <= |run.matches|
      invariant MatchesData(run.matches[..i], template, matcher) == Some(log)
      invariant result.entries == Apply(map[], log)
    {
      var m := run.matches[i];
      ghost var outer := Emitted(m.groups, template.outerPlaceholders);
      AddGroupValues(result, m.groups, template.outerPlaceholders);
      ApplyConcat(map[], log, outer);
      assert result.entries == Apply(map[], log + outer);
      ConcatEmpty(log + outer);
      ghost var recurring: seq<Entry> := [];
      var c := 0;
      while c < |m.captures|
        invariant 0 <= c <= |m.captures|
        invariant CapturesData(m.captures[..c], template, matcher) == Some(recurring)
        invariant result.entries == Apply(map[], log + outer + recurring)
      {
        var error := GetRecurringData(result, m.captures[c], template, matcher);
        if error.Some? {
          CaptureFailureStops(run.matches, i, c, template, matcher);
          return Failure(ParsingError(content, regex));
        }
        ghost var more := RecurringData(m.captures[c], template, matcher).value;
        CapturesStep(m.captures, c, template, matcher);
        ApplyConcat(map[], log + outer + recurring, more);
        ConcatAssoc(log + outer, recurring, more);
        recurring := recurring + more;
        c := c + 1;
      }
      assert m.captures[..c] == m.captures;
      MatchesStep(run.matches, i, template, matcher);
      ConcatAssoc(log, outer, recurring);
      log := log + (outer + recurring);
      i := i + 1;
    }
    assert run.matches[..i] == run.matches;
    match run.failure
    case None => return Success(result.entries);
    case Some(ArgumentFamily) => return Failure(ParsingError(content, regex));
    case Some(Other) => return Failure(Unhandled);
  }
}
