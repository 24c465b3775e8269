/**
 * `Parser.BuildRegexFromTemplate`: the template text turned into a regular
 * expression by escaping it and then rewriting the escaped text with an
 * ordered chain of replacements.
 */
module Patterns {
  import opened Wrappers
  import opened TextOps
  import TokenScan
  import TemplateTexts

  /** The characters `Regex.Escape` prefixes with a backslash as they are. */
  predicate IsMeta(c: char) {
    c == '\\' || c == '*' || c == '+' || c == '?' || c == '|' || c == '{' || c == '[' ||
    c == '(' || c == ')' || c == '^' || c == '$' || c == '.' || c == '#' || c == ' '
  }

  /** The white-space characters `Regex.Escape` writes as a letter escape. */
  predicate IsEscapedWhite(c: char) {
    c == '\t' || c == '\n' || c == '\r' || c == '\U{0C}'
  }

  /** The escape of one character. */
  function EscapeChar(c: char): (r: string)
    ensures 1 <= |r| <= 2
  {
    if c == '\t' then "\\t"
    else if c == '\n' then "\\n"
    else if c == '\r' then "\\r"
    else if c == '\U{0C}' then "\\f"
    else if IsMeta(c) then ['\\', c]
    else [c]
  }

  /** `Regex.Escape`: each character escaped in turn. */
  function Escape(s: string): (r: string)
    ensures |r| >= |s|
  {
    if s == [] then [] else EscapeChar(s[0]) + Escape(s[1..])
  }

  /** The character a backslash escape `\d` stands for in a pattern, if `d` may follow a backslash. */
  function EscapedChar(d: char): Option<char> {
    if d == 't' then Some('\t')
    else if d == 'n' then Some('\n')
    else if d == 'r' then Some('\r')
    else if d == 'f' then Some('\U{0C}')
    else if IsMeta(d) then Some(d)
    else None
  }

  /**
   * How the regular-expression engine reads a pattern made only of literal
   * characters and escapes: the text it matches, or `None` when the pattern
   * holds an unescaped metacharacter or a dangling backslash.
   */
  function ReadLiteral(p: string): Option<string>
    decreases |p|
  {
    if p == [] then Some([])
    else if p[0] == '\\' then
      if |p| < 2 then None
      else match (EscapedChar(p[1]), ReadLiteral(p[2..]))
        case (Some(c), Some(rest)) => Some([c] + rest)
        case _ => None
    else if IsMeta(p[0]) || IsEscapedWhite(p[0]) then None
    else match ReadLiteral(p[1..])
      case Some(rest) => Some([p[0]] + rest)
      case None => None
  }

  /** The escaped text is a pattern that matches exactly the original text. */
  lemma {:induction false} EscapeRoundTrip(s: string)
    ensures ReadLiteral(Escape(s)) == Some(s)
    decreases |s|
  {
    if s != [] {
      EscapeRoundTrip(s[1..]);
      ReadEscapedChar(s[0], Escape(s[1..]), s[1..]);
      assert s == [s[0]] + s[1..];
    }
  }

  /** The escape of a character, read back in front of a literal pattern, gives that character. */
  lemma ReadEscapedChar(c: char, rest: string, t: string)
    requires ReadLiteral(rest) == Some(t)
    ensures ReadLiteral(EscapeChar(c) + rest) == Some([c] + t)
  {
    var e := EscapeChar(c);
    var p := e + rest;
    EscapeCharShape(c);
    if |e| == 2 {
      assert p[0] == '\\' && p[1] == e[1] && p[2..] == rest;
    } else {
      assert p[0] == c && p[1..] == rest;
    }
  }

  /** A two-character escape is a backslash and a letter that stands for the character; otherwise the character is kept. */
  lemma EscapeCharShape(c: char)
    ensures var e := EscapeChar(c);
      && (|e| == 2 ==> e[0] == '\\' && EscapedChar(e[1]) == Some(c))
      && (|e| == 1 ==> e == [c] && c != '\\' && !IsMeta(c) && !IsEscapedWhite(c))
  {
  }

  /** Distinct texts have distinct escapes. */
  lemma EscapeInjective(a: string, b: string)
    requires Escape(a) == Escape(b)
    ensures a == b
  {
    EscapeRoundTrip(a);
    EscapeRoundTrip(b);
  }

  /** Escaping distributes over concatenation. */
  lemma {:induction false} EscapeConcat(a: string, b: string)
    ensures Escape(a + b) == Escape(a) + Escape(b)
    decreases |a|
  {
    if a != [] {
      EscapeConcat(a[1..], b);
      EscapeCons(a[0], a[1..] + b);
      EscapeCons(a[0], a[1..]);
      ConsConcat(a, b);
      assert [a[0]] + a[1..] == a;
    } else {
      assert a + b == b;
    }
  }

  /** Escaping a character followed by a text. */
  lemma EscapeCons(c: char, s: string)
    ensures Escape([c] + s) == EscapeChar(c) + Escape(s)
  {
    assert ([c] + s)[1..] == s;
  }

  lemma ConsConcat(a: string, b: string)
    requires a != []
    ensures a + b == [a[0]] + (a[1..] + b)
  {
  }

  /** What the escaped start and end markers are rewritten to: a repeated named group. */
  const SectionOpen: string := "(?<RecurringSection>"
  const SectionClose: string := ")+"
  /** What line breaks become, in the pattern and in the content alike. */
  const NewLine: string := "{{NEWLINE}}"

  /** The named lazy group that captures a placeholder's value. */
  function GroupFor(name: string): string {
    "(?<" + name + ">.+?)"
  }

  /** The escaped markers, `Regex.Escape` of `{{RecurringStart}}` and `{{RecurringEnd}}` (see `MarkerEscapes`). */
  const EscapedStart: string := "\\{\\{RecurringStart}}"
  const EscapedEnd: string := "\\{\\{RecurringEnd}}"

  /** The escaped text with the markers turned into the section group and `/` escaped. */
  function Prepare(templateText: string): string {
    var escaped := Escape(templateText);
    var sectioned := ReplaceAll(escaped, EscapedStart, SectionOpen);
    var closed := ReplaceAll(sectioned, EscapedEnd, SectionClose);
    ReplaceAll(closed, "/", "\\/")
  }

  /** The escaped token of each placeholder replaced by its group, placeholder after placeholder. */
  function SubstituteAll(regex: string, placeholders: seq<string>): string
    decreases |placeholders|
  {
    if placeholders == [] then regex
    else
      var p := placeholders[0];
      SubstituteAll(ReplaceAll(regex, Escape(TokenScan.Token(p)), GroupFor(p)), placeholders[1..])
  }

  /**
   * The fixed chain of replacements that undoes some escapes and turns line
   * breaks into the `{{NEWLINE}}` marker.
   */
  function Finish(regex: string): string {
    var r1 := ReplaceAll(regex, "\\ ", " ");
    var r2 := ReplaceAll(r1, "\\:", ":");
    var r3 := ReplaceAll(r2, "\\\\", "\\");
    var r4 := ReplaceAll(r3, "\\r", "\r");
    var r5 := ReplaceAll(r4, "\\n", "\n");
    var r6 := ReplaceAll(r5, "\\{", "{");
    var r7 := ReplaceAll(r6, "\r\n", NewLine);
    ReplaceAll(r7, "\n", NewLine)
  }

  /** The pattern built from a template text and its placeholder names. */
  function Synthesize(templateText: string, placeholders: seq<string>): string {
    "^" + Finish(SubstituteAll(Prepare(templateText), placeholders)) + "$"
  }

  /** `BuildRegexFromTemplate(templateText, placeholders)`. */
  method BuildRegexFromTemplate(templateText: string, placeholders: seq<string>) returns (r: string)
    ensures r == Synthesize(templateText, placeholders)
  {
    var regex := Prepare(templateText);
    ghost var prepared := regex;
    var i := 0;
    while i < |placeholders|
      invariant 0 <= i <= |placeholders|
      invariant SubstituteAll(regex, placeholders[i..]) == SubstituteAll(prepared, placeholders)
    {
      var placeholder := placeholders[i];
      var placeholderPattern := Escape(TokenScan.Token(placeholder));
      assert placeholders[i..][1..] == placeholders[i + 1..];
      regex := ReplaceAll(regex, placeholderPattern, GroupFor(placeholder));
      i := i + 1;
    }
    regex := Finish(regex);
    return "^" + regex + "$";
  }

  /**
   * Every pattern is anchored at both ends and holds no line feed: line
   * breaks of the template only ever appear as `{{NEWLINE}}`.
   */
  lemma PatternShape(templateText: string, placeholders: seq<string>)
    ensures var r := Synthesize(templateText, placeholders);
      |r| >= 2 && r[0] == '^' && r[|r| - 1] == '$' && '\n' !in r
  {
    var body := SubstituteAll(Prepare(templateText), placeholders);
    var f := Finish(body);
    var r6 := ReplaceAll(ReplaceAll(ReplaceAll(ReplaceAll(ReplaceAll(ReplaceAll(body, "\\ ", " "),
      "\\:", ":"), "\\\\", "\\"), "\\r", "\r"), "\\n", "\n"), "\\{", "{");
    var r7 := ReplaceAll(r6, "\r\n", NewLine);
    ReplaceAllRemovesChar(r7, '\n', NewLine);
    assert "\n" == ['\n'];
    assert f == ReplaceAll(r7, "\n", NewLine);
  }

  /**
   * The expectation written in the pattern test (a raw line feed between
   * the two lines) is not what the chain produces.
   */
  lemma LineFeedTestExpectationDiffers()
    ensures Synthesize("Account: {{AccountRecipient}}\nDate: {{PostingDate}}", ["AccountRecipient", "PostingDate"])
      != "^Account: (?<AccountRecipient>.+?)\nDate: (?<PostingDate>.+?)$"
  {
    var expected := "^Account: (?<AccountRecipient>.+?)\nDate: (?<PostingDate>.+?)$";
    assert expected[34] == '\n';
    PatternShape("Account: {{AccountRecipient}}\nDate: {{PostingDate}}", ["AccountRecipient", "PostingDate"]);
  }

  /** ASCII letters, digits and `_`: characters the escape leaves alone. */
  predicate IsWordChar(c: char) {
    'a' <= c <= 'z' || 'A' <= c <= 'Z' || '0' <= c <= '9' || c == '_'
  }

  predicate IsWord(s: string) {
    forall i :: 0 <= i < |s| ==> IsWordChar(s[i])
  }

  lemma {:induction false} EscapeWord(s: string)
    requires IsWord(s)
    ensures Escape(s) == s
    decreases |s|
  {
    if s != [] {
      EscapeWord(s[1..]);
      assert s == [s[0]] + s[1..];
    }
  }

  /** The escaped token of a word name. */
  function EscapedToken(n: string): string {
    "\\{\\{" + n + "}}"
  }

  lemma EscapeToken(n: string)
    requires IsWord(n)
    ensures Escape(TokenScan.Token(n)) == EscapedToken(n)
  {
    EscapeConcat("{{" + n, "}}");
    EscapeConcat("{{", n);
    EscapeWord(n);
    assert Escape("}}") == "}}";
    assert Escape("{{") == "\\{\\{";
  }

  /** In an escaped token the backslashes stand only before the two opening braces. */
  lemma EscapedTokenBackslashes(n: string, k: nat)
    requires IsWord(n) && k < |EscapedToken(n)| && EscapedToken(n)[k] == '\\'
    ensures k == 0 || k == 2
  {
    var x := EscapedToken(n);
    assert forall i :: 0 <= i < |n| ==> x[4 + i] == n[i];
    assert x[1] == '{' && x[3] == '{' && x[4 + |n|] == '}' && x[5 + |n|] == '}';
  }

  /**
   * An escaped word token, followed by anything, holds the escaped token of
   * a word name within its own extent only at its start, and only for the
   * same name.
   */
  lemma EscapedTokenOccurrence(n: string, y: string, m: string, k: nat)
    requires IsWord(n) && IsWord(m) && n != []
    requires k < |EscapedToken(n)| && OccursAt(EscapedToken(n) + y, EscapedToken(m), k)
    ensures k == 0 && n == m
  {
    var x := EscapedToken(n);
    var s := x + y;
    var pat := EscapedToken(m);
    assert s[k..k + |pat|] == pat;
    assert s[k] == pat[0] == '\\';
    EscapedTokenBackslashes(n, k);
    assert s[k + 2] == pat[2] == '\\';
    assert x[4] == n[0];
    assert forall i :: 0 <= i < |n| ==> s[4 + i] == n[i];
    assert s[4 + |n|] == '}';
    assert forall i :: 0 <= i < |m| ==> pat[4 + i] == m[i];
    assert s[4 + |m|] == pat[4 + |m|] == '}';
    assert |m| == |n|;
    assert n == s[4..4 + |n|] == pat[4..4 + |m|] == m;
  }

  /** Replacing the escaped token of another name leaves an escaped word token in place. */
  lemma ReplaceOtherToken(n: string, y: string, m: string, rep: string)
    requires IsWord(n) && IsWord(m) && n != [] && n != m
    ensures ReplaceAll(EscapedToken(n) + y, EscapedToken(m), rep) == EscapedToken(n) + ReplaceAll(y, EscapedToken(m), rep)
  {
    var x := EscapedToken(n);
    forall k | 0 <= k < |x| ensures !OccursAt(x + y, EscapedToken(m), k) {
      if OccursAt(x + y, EscapedToken(m), k) {
        EscapedTokenOccurrence(n, y, m, k);
      }
    }
    ReplaceAllSkip(x, y, EscapedToken(m), rep);
  }

  /** Text with neither backslash nor line break passes the final chain unchanged. */
  lemma FinishPlain(s: string)
    requires '\\' !in s && '\r' !in s && '\n' !in s
    ensures Finish(s) == s
  {
    ReplaceAllWithoutFirstChar(s, "\\ ", " ");
    ReplaceAllWithoutFirstChar(s, "\\:", ":");
    ReplaceAllWithoutFirstChar(s, "\\\\", "\\");
    ReplaceAllWithoutFirstChar(s, "\\r", "\r");
    ReplaceAllWithoutFirstChar(s, "\\n", "\n");
    ReplaceAllWithoutFirstChar(s, "\\{", "{");
    ReplaceAllWithoutFirstChar(s, "\r\n", NewLine);
    ReplaceAllWithoutFirstChar(s, "\n", NewLine);
  }

  /** The two marker constants are what `Regex.Escape` makes of the marker tokens. */
  lemma MarkerEscapes()
    ensures Escape(TemplateTexts.StartMarker) == EscapedStart
    ensures Escape(TemplateTexts.EndMarker) == EscapedEnd
  {
    StartMarkerEscape();
    EndMarkerEscape();
  }

  lemma StartMarkerEscape()
    ensures Escape(TemplateTexts.StartMarker) == EscapedStart
  {
    MarkerNamesAreWords();
    MarkerEscapesAreTokens();
    EscapeToken("RecurringStart");
  }

  lemma EndMarkerEscape()
    ensures Escape(TemplateTexts.EndMarker) == EscapedEnd
  {
    MarkerNamesAreWords();
    MarkerEscapesAreTokens();
    EscapeToken("RecurringEnd");
  }

  lemma MarkerNamesAreWords()
    ensures IsWord("RecurringStart") && IsWord("RecurringEnd")
  {
  }

  lemma MarkerEscapesAreTokens()
    ensures EscapedStart == EscapedToken("RecurringStart")
    ensures EscapedEnd == EscapedToken("RecurringEnd")
  {
  }

  /** A word token that is not a marker is not touched by the preparation steps. */
  lemma PrepareToken(n: string)
    requires IsWord(n) && n != [] && n != "RecurringStart" && n != "RecurringEnd"
    ensures Prepare(TokenScan.Token(n)) == EscapedToken(n)
  {
    EscapeToken(n);
    KeepsOtherToken(n, "RecurringStart", SectionOpen);
    KeepsOtherToken(n, "RecurringEnd", SectionClose);
    MarkerEscapesAreTokens();
    SlashFreeToken(n);
  }

  lemma KeepsOtherToken(n: string, m: string, rep: string)
    requires IsWord(n) && n != [] && n != m && (m == "RecurringStart" || m == "RecurringEnd")
    ensures ReplaceAll(EscapedToken(n), EscapedToken(m), rep) == EscapedToken(n)
  {
    MarkerNamesAreWords();
    var x := EscapedToken(n);
    assert x + [] == x;
    ReplaceOtherToken(n, [], m, rep);
  }

  lemma SlashFreeToken(n: string)
    requires IsWord(n)
    ensures ReplaceAll(EscapedToken(n), "/", "\\/") == EscapedToken(n)
  {
    var x := EscapedToken(n);
    assert forall i :: 0 <= i < |n| ==> x[4 + i] == n[i];
    ReplaceAllWithoutFirstChar(x, "/", "\\/");
  }

  lemma SubstituteOwnToken(n: string)
    requires IsWord(n)
    ensures SubstituteAll(EscapedToken(n), [n]) == GroupFor(n)
  {
    var x := EscapedToken(n);
    EscapeToken(n);
    assert [n][1..] == [];
    ReplaceAllAtFront([], x, GroupFor(n));
    assert x + [] == x;
    assert GroupFor(n) + [] == GroupFor(n);
  }

  lemma GroupIsPlain(n: string)
    requires IsWord(n)
    ensures '\\' !in GroupFor(n) && '\r' !in GroupFor(n) && '\n' !in GroupFor(n)
  {
    assert forall i :: 0 <= i < |n| ==> GroupFor(n)[3 + i] == n[i];
  }

  /** Backslashes that all stand before a brace match no escape other than `\{`. */
  lemma NoOtherEscape(n: string, d: char, rep: string)
    requires IsWord(n) && d != '{'
    ensures ReplaceAll(EscapedToken(n), ['\\', d], rep) == EscapedToken(n)
  {
    var x := EscapedToken(n);
    forall k: nat | k + 2 <= |x| ensures !OccursAt(x, ['\\', d], k) {
      assert x[k..k + 2][0] == x[k] && x[k..k + 2][1] == x[k + 1];
      if x[k] == '\\' {
        EscapedTokenBackslashes(n, k);
        assert x[1] == '{' && x[3] == '{';
      }
    }
    ReplaceAllAbsent(x, ['\\', d], rep);
  }

  /** The final chain turns an escaped word token back into the token. */
  lemma FinishEscapedToken(n: string)
    requires IsWord(n)
    ensures Finish(EscapedToken(n)) == TokenScan.Token(n)
  {
    NoOtherEscape(n, ' ', " ");
    NoOtherEscape(n, ':', ":");
    NoOtherEscape(n, '\\', "\\");
    NoOtherEscape(n, 'r', "\r");
    NoOtherEscape(n, 'n', "\n");
    UnescapeBraces(n);
    TokenHasNoLineBreak(n);
  }

  lemma UnescapeBraces(n: string)
    requires IsWord(n)
    ensures ReplaceAll(EscapedToken(n), "\\{", "{") == TokenScan.Token(n)
  {
    var t := n + "}}";
    EscapedTokenSplits(n);
    ReplaceAllAtFrontTwice(t, "\\{", "{");
    NameTailHasNoBackslash(n);
    TokenSplits(n);
  }

  lemma EscapedTokenSplits(n: string)
    ensures EscapedToken(n) == "\\{" + ("\\{" + (n + "}}"))
  {
  }

  lemma TokenSplits(n: string)
    ensures TokenScan.Token(n) == "{" + ("{" + (n + "}}"))
  {
  }

  lemma ReplaceAllAtFrontTwice(t: string, pat: string, rep: string)
    requires pat != []
    ensures ReplaceAll(pat + (pat + t), pat, rep) == rep + (rep + ReplaceAll(t, pat, rep))
  {
    ReplaceAllAtFront(pat + t, pat, rep);
    ReplaceAllAtFront(t, pat, rep);
  }

  lemma NameTailHasNoBackslash(n: string)
    requires IsWord(n)
    ensures ReplaceAll(n + "}}", "\\{", "{") == n + "}}"
  {
    var t := n + "}}";
    assert forall i :: 0 <= i < |n| ==> t[i] == n[i];
    ReplaceAllWithoutFirstChar(t, "\\{", "{");
  }

  lemma TokenHasNoLineBreak(n: string)
    requires IsWord(n)
    ensures ReplaceAll(TokenScan.Token(n), "\r\n", NewLine) == TokenScan.Token(n)
    ensures ReplaceAll(TokenScan.Token(n), "\n", NewLine) == TokenScan.Token(n)
  {
    var token := TokenScan.Token(n);
    assert forall i :: 0 <= i < |n| ==> token[2 + i] == n[i];
    ReplaceAllWithoutFirstChar(token, "\r\n", NewLine);
    ReplaceAllWithoutFirstChar(token, "\n", NewLine);
  }
  /**
   * Characters that `Regex.Escape` leaves as they are and that none of the
   * later replacements touch.
   */
  predicate IsLiteralChar(c: char) {
    !IsMeta(c) && !IsEscapedWhite(c) && c != '/'
  }

  /** Text made of literal characters only. */
  predicate IsLiteral(s: string) {
    forall i :: 0 <= i < |s| ==> IsLiteralChar(s[i])
  }

  /** Placeholder names that are words. */
  predicate AllWords(names: seq<string>) {
    forall i :: 0 <= i < |names| ==> IsWord(names[i])
  }

  lemma {:induction false} EscapeLiteral(s: string)
    requires IsLiteral(s)
    ensures Escape(s) == s
    decreases |s|
  {
    if s != [] {
      EscapeLiteral(s[1..]);
      assert s == [s[0]] + s[1..];
    }
  }

  /** Literal text holds no backslash, no line break and no slash. */
  lemma LiteralIsPlain(s: string)
    requires IsLiteral(s)
    ensures '\\' !in s && '\r' !in s && '\n' !in s && '/' !in s
  {
    forall c | c in s ensures IsLiteralChar(c) {
      var i :| 0 <= i < |s| && s[i] == c;
    }
  }

  /** The characters of an escaped word token. */
  lemma EscapedTokenChars(n: string)
    requires IsWord(n)
    ensures '/' !in EscapedToken(n) && '\r' !in EscapedToken(n) && '\n' !in EscapedToken(n)
  {
    var x := EscapedToken(n);
    assert forall i :: 0 <= i < |n| ==> x[4 + i] == n[i];
  }

  /** The escape of every token starts with a backslash, whatever its name. */
  lemma EscapedTokenStartsWithBackslash(p: string)
    ensures Escape(TokenScan.Token(p)) != [] && Escape(TokenScan.Token(p))[0] == '\\'
  {
    var t := TokenScan.Token(p);
    assert t == ['{'] + t[1..];
    EscapeCons('{', t[1..]);
  }

  /** Replacing another name's escaped token keeps an escaped token between backslash-free texts. */
  lemma ReplaceOtherAround(a: string, n: string, b: string, m: string, rep: string)
    requires '\\' !in a && '\\' !in b && IsWord(n) && IsWord(m) && n != [] && n != m
    ensures ReplaceAll(a + EscapedToken(n) + b, EscapedToken(m), rep) == a + EscapedToken(n) + b
  {
    var x := EscapedToken(n);
    var pat := EscapedToken(m);
    assert pat[0] == '\\';
    assert a + x + b == a + (x + b);
    ReplaceAllPlainPrefix(a, x + b, pat, rep);
    ReplaceOtherToken(n, b, m, rep);
    ReplaceAllWithoutFirstChar(b, pat, rep);
  }

  /** Replacing a name's own escaped token between backslash-free texts. */
  lemma ReplaceOwnAround(a: string, n: string, b: string, rep: string)
    requires '\\' !in a && '\\' !in b
    ensures ReplaceAll(a + EscapedToken(n) + b, EscapedToken(n), rep) == a + rep + b
  {
    var x := EscapedToken(n);
    assert x[0] == '\\';
    assert a + x + b == a + (x + b);
    ReplaceAllPlainPrefix(a, x + b, x, rep);
    ReplaceAllAtFront(b, x, rep);
    ReplaceAllWithoutFirstChar(b, x, rep);
    assert a + (rep + b) == a + rep + b;
  }

  /** Text without a backslash holds no escaped token, so substitution leaves it alone. */
  lemma {:induction false} SubstituteNoBackslash(s: string, names: seq<string>)
    requires '\\' !in s
    ensures SubstituteAll(s, names) == s
    decreases |names|
  {
    if names != [] {
      var p := names[0];
      EscapedTokenStartsWithBackslash(p);
      ReplaceAllWithoutFirstChar(s, Escape(TokenScan.Token(p)), GroupFor(p));
      SubstituteNoBackslash(s, names[1..]);
    }
  }

  /**
   * Between backslash-free texts, the escaped token of `n` becomes its group
   * when `n` is listed, and stays as it is otherwise.
   */
  lemma {:induction false} SubstituteAround(a: string, n: string, b: string, names: seq<string>)
    requires '\\' !in a && '\\' !in b && IsWord(n) && n != [] && AllWords(names)
    ensures SubstituteAll(a + EscapedToken(n) + b, names) ==
      a + (if n in names then GroupFor(n) else EscapedToken(n)) + b
    decreases |names|
  {
    if names != [] {
      var p := names[0];
      EscapeToken(p);
      assert n in names <==> n == p || n in names[1..];
      if p == n {
        ReplaceOwnAround(a, n, b, GroupFor(n));
        GroupIsPlain(n);
        SubstituteNoBackslash(a + GroupFor(n) + b, names[1..]);
      } else {
        ReplaceOtherAround(a, n, b, p, GroupFor(p));
        SubstituteAround(a, n, b, names[1..]);
      }
    }
  }

  /** An escape other than `\{` does not occur in an escaped token followed by backslash-free text. */
  lemma OtherEscapeAround(a: string, n: string, b: string, d: char, rep: string)
    requires '\\' !in a && '\\' !in b && IsWord(n) && d != '{'
    ensures ReplaceAll(a + EscapedToken(n) + b, ['\\', d], rep) == a + EscapedToken(n) + b
  {
    var x := EscapedToken(n);
    var pat := ['\\', d];
    assert a + x + b == a + (x + b);
    ReplaceAllPlainPrefix(a, x + b, pat, rep);
    forall k | 0 <= k < |x| ensures !OccursAt(x + b, pat, k) {
      if k + 2 <= |x + b| {
        assert (x + b)[k..k + 2][0] == (x + b)[k] == x[k];
        assert (x + b)[k..k + 2][1] == (x + b)[k + 1];
        if x[k] == '\\' {
          EscapedTokenBackslashes(n, k);
          assert x[k + 1] == '{';
        }
      }
    }
    ReplaceAllSkip(x, b, pat, rep);
    ReplaceAllWithoutFirstChar(b, pat, rep);
  }

  /** Unescaping the braces of an escaped token between backslash-free texts. */
  lemma UnescapeBracesAround(a: string, n: string, b: string)
    requires '\\' !in a && '\\' !in b && IsWord(n)
    ensures ReplaceAll(a + EscapedToken(n) + b, "\\{", "{") == a + TokenScan.Token(n) + b
  {
    var t := n + "}}" + b;
    EscapedTokenSplits(n);
    Regroup(a, "\\{", "\\{", n + "}}", b);
    ReplaceAllPlainPrefix(a, "\\{" + ("\\{" + t), "\\{", "{");
    ReplaceAllAtFrontTwice(t, "\\{", "{");
    WordTailIsPlain(n, b);
    ReplaceAllWithoutFirstChar(t, "\\{", "{");
    TokenSplits(n);
    Regroup(a, "{", "{", n + "}}", b);
  }

  /** A word name, the closing braces and backslash-free text hold no backslash. */
  lemma WordTailIsPlain(n: string, b: string)
    requires IsWord(n) && '\\' !in b
    ensures '\\' !in n + "}}" + b
  {
    assert forall i :: 0 <= i < |n| ==> IsWordChar(n[i]);
  }

  /** Nesting a concatenation of five texts to the right. */
  lemma Nest<T>(a: seq<T>, p: seq<T>, q: seq<T>, m: seq<T>, b: seq<T>)
    ensures a + p + q + m + b == a + (p + (q + (m + b)))
    ensures a + p + q + m + b == (a + p) + (q + (m + b))
  {
  }

  /** Regrouping a concatenation of five texts. */
  lemma Regroup<T>(a: seq<T>, p: seq<T>, q: seq<T>, m: seq<T>, b: seq<T>)
    ensures a + (p + (q + (m + b))) == a + (p + (q + m)) + b
  {
  }

  /** The final chain turns an escaped word token between plain texts back into the token. */
  lemma FinishAround(a: string, n: string, b: string)
    requires '\\' !in a && '\\' !in b && '\r' !in a && '\r' !in b && '\n' !in a && '\n' !in b
    requires IsWord(n)
    ensures Finish(a + EscapedToken(n) + b) == a + TokenScan.Token(n) + b
  {
    OtherEscapeAround(a, n, b, ' ', " ");
    OtherEscapeAround(a, n, b, ':', ":");
    OtherEscapeAround(a, n, b, '\\', "\\");
    OtherEscapeAround(a, n, b, 'r', "\r");
    OtherEscapeAround(a, n, b, 'n', "\n");
    UnescapeBracesAround(a, n, b);
    var t := a + TokenScan.Token(n) + b;
    assert forall i :: 0 <= i < |n| ==> TokenScan.Token(n)[2 + i] == n[i];
    assert '\r' !in t && '\n' !in t;
    ReplaceAllWithoutFirstChar(t, "\r\n", NewLine);
    ReplaceAllWithoutFirstChar(t, "\n", NewLine);
  }

  /** Literal text with no token passes through unchanged, between the anchors. */
  lemma LiteralTextStaysLiteral(a: string, names: seq<string>)
    requires IsLiteral(a)
    ensures Synthesize(a, names) == "^" + a + "$"
  {
    EscapeLiteral(a);
    LiteralIsPlain(a);
    ReplaceAllWithoutFirstChar(a, EscapedStart, SectionOpen);
    ReplaceAllWithoutFirstChar(a, EscapedEnd, SectionClose);
    ReplaceAllWithoutFirstChar(a, "/", "\\/");
    SubstituteNoBackslash(a, names);
    FinishPlain(a);
  }

  /** Literal text that may also hold spaces, which `Regex.Escape` escapes and the chain unescapes. */
  predicate IsSpacedLiteral(s: string) {
    forall i :: 0 <= i < |s| ==> IsLiteralChar(s[i]) || s[i] == ' '
  }

  /**
   * The escape of spaced literal text holds no brace, slash or line break, and
   * unescaping its spaces restores it.
   */
  lemma {:induction false} EscapeSpacedLiteral(s: string)
    requires IsSpacedLiteral(s)
    ensures '{' !in Escape(s) && '/' !in Escape(s) && '\r' !in Escape(s) && '\n' !in Escape(s)
    ensures ReplaceAll(Escape(s), "\\ ", " ") == s
    decreases |s|
  {
    if s != [] {
      var rest := Escape(s[1..]);
      EscapeSpacedLiteral(s[1..]);
      assert s == [s[0]] + s[1..];
      if s[0] == ' ' {
        assert Escape(s) == "\\ " + rest;
        ReplaceAllAtFront(rest, "\\ ", " ");
      } else {
        assert Escape(s) == [s[0]] + rest;
        ReplaceAllPlainPrefix([s[0]], rest, "\\ ", " ");
      }
    }
  }

  /** A pattern holding a character the text lacks is not replaced anywhere in it. */
  lemma ReplaceAllMissingChar(s: string, pat: string, rep: string, k: nat)
    requires k < |pat| && pat[k] !in s
    ensures ReplaceAll(s, pat, rep) == s
  {
    forall j: nat ensures !OccursAt(s, pat, j) {
      if j + |pat| <= |s| {
        assert s[j..j + |pat|][k] == s[j + k];
      }
    }
    ReplaceAllAbsent(s, pat, rep);
  }

  /** The escape of every token holds an opening brace, whatever its name. */
  lemma EscapedTokenHasBrace(p: string)
    ensures |Escape(TokenScan.Token(p))| > 1 && Escape(TokenScan.Token(p))[1] == '{'
  {
    var t := TokenScan.Token(p);
    assert t == ['{'] + t[1..];
    EscapeCons('{', t[1..]);
  }

  /** Text without an opening brace holds no escaped token, so substitution leaves it alone. */
  lemma {:induction false} SubstituteNoBrace(s: string, names: seq<string>)
    requires '{' !in s
    ensures SubstituteAll(s, names) == s
    decreases |names|
  {
    if names != [] {
      var p := names[0];
      EscapedTokenHasBrace(p);
      ReplaceAllMissingChar(s, Escape(TokenScan.Token(p)), GroupFor(p), 1);
      SubstituteNoBrace(s, names[1..]);
    }
  }

  /**
   * Text without tokens, made of literal characters and spaces, becomes the
   * pattern itself between `^` and `$`: each space is escaped to `\ ` and the
   * first replacement of the chain turns it back into a space.
   */
  lemma SpacedTextStaysLiteral(a: string, names: seq<string>)
    requires IsSpacedLiteral(a)
    ensures Synthesize(a, names) == "^" + a + "$"
  {
    EscapeSpacedLiteral(a);
    PrepareSpaced(a);
    SubstituteNoBrace(Escape(a), names);
    FinishSpaced(a);
  }

  /** Preparing spaced literal text only escapes it: no marker and no slash occurs. */
  lemma PrepareSpaced(a: string)
    requires IsSpacedLiteral(a)
    ensures Prepare(a) == Escape(a)
  {
    var e := Escape(a);
    EscapeSpacedLiteral(a);
    assert EscapedStart[1] == '{' && EscapedEnd[1] == '{';
    ReplaceAllMissingChar(e, EscapedStart, SectionOpen, 1);
    ReplaceAllMissingChar(e, EscapedEnd, SectionClose, 1);
    ReplaceAllWithoutFirstChar(e, "/", "\\/");
  }

  /** The chain turns the escaped spaces back and leaves the rest of spaced literal text alone. */
  lemma FinishSpaced(a: string)
    requires IsSpacedLiteral(a)
    ensures Finish(Escape(a)) == a
  {
    EscapeSpacedLiteral(a);
    assert '\\' !in a && '\r' !in a && '\n' !in a by {
      forall i | 0 <= i < |a| ensures a[i] != '\\' && a[i] != '\r' && a[i] != '\n' {
        assert IsLiteralChar(a[i]) || a[i] == ' ';
      }
    }
    ReplaceAllWithoutFirstChar(a, "\\:", ":");
    ReplaceAllWithoutFirstChar(a, "\\\\", "\\");
    ReplaceAllWithoutFirstChar(a, "\\r", "\r");
    ReplaceAllWithoutFirstChar(a, "\\n", "\n");
    ReplaceAllWithoutFirstChar(a, "\\{", "{");
    ReplaceAllWithoutFirstChar(a, "\r\n", NewLine);
    ReplaceAllWithoutFirstChar(a, "\n", NewLine);
  }

  /**
   * A token of a word name between literal texts: it becomes the name's
   * lazy named group when the name is listed, and stays the literal token
   * otherwise; the text around it is copied into the pattern as it is.
   */
  lemma TokenInLiteralText(a: string, n: string, b: string, names: seq<string>)
    requires IsLiteral(a) && IsLiteral(b)
    requires IsWord(n) && n != [] && n != "RecurringStart" && n != "RecurringEnd"
    requires AllWords(names)
    ensures Synthesize(a + TokenScan.Token(n) + b, names) ==
      "^" + a + (if n in names then GroupFor(n) else TokenScan.Token(n)) + b + "$"
  {
    LiteralIsPlain(a);
    LiteralIsPlain(b);
    var text := a + TokenScan.Token(n) + b;
    TokenPrepare(a, n, b);
    SubstituteAround(a, n, b, names);
    var m := if n in names then GroupFor(n) else TokenScan.Token(n);
    if n in names {
      GroupIsPlain(n);
      FinishPlain(a + GroupFor(n) + b);
    } else {
      FinishAround(a, n, b);
    }
    assert Finish(SubstituteAll(Prepare(text), names)) == a + m + b;
    Anchor("^", a, m, b, "$");
  }

  /** Preparing a word token between literal texts only escapes the token. */
  lemma TokenPrepare(a: string, n: string, b: string)
    requires IsLiteral(a) && IsLiteral(b)
    requires IsWord(n) && n != [] && n != "RecurringStart" && n != "RecurringEnd"
    ensures Prepare(a + TokenScan.Token(n) + b) == a + EscapedToken(n) + b
  {
    LiteralIsPlain(a);
    LiteralIsPlain(b);
    var x := EscapedToken(n);
    var s := a + x + b;
    TokenEscape(a, n, b);
    MarkerNamesAreWords();
    MarkerEscapesAreTokens();
    ReplaceOtherAround(a, n, b, "RecurringStart", SectionOpen);
    ReplaceOtherAround(a, n, b, "RecurringEnd", SectionClose);
    EscapedTokenChars(n);
    ReplaceAllWithoutFirstChar(s, "/", "\\/");
  }

  lemma TokenEscape(a: string, n: string, b: string)
    requires IsLiteral(a) && IsLiteral(b) && IsWord(n)
    ensures Escape(a + TokenScan.Token(n) + b) == a + EscapedToken(n) + b
  {
    EscapeConcat(a + TokenScan.Token(n), b);
    EscapeConcat(a, TokenScan.Token(n));
    EscapeLiteral(a);
    EscapeLiteral(b);
    EscapeToken(n);
  }

  /** Anchoring a concatenation of three texts. */
  lemma Anchor<T>(h: seq<T>, a: seq<T>, m: seq<T>, b: seq<T>, t: seq<T>)
    ensures h + (a + m + b) + t == h + a + m + b + t
  {
  }

  /** Anchoring a concatenation of five texts. */
  lemma AnchorFive<T>(h: seq<T>, a: seq<T>, p: seq<T>, m: seq<T>, q: seq<T>, b: seq<T>, t: seq<T>)
    ensures h + ((a + p) + m + (q + b)) + t == h + a + p + m + q + b + t
  {
  }

  /** The group texts that replace the markers hold no character any later step acts on. */
  lemma SectionPartsArePlain()
    ensures '\\' !in SectionOpen && '\r' !in SectionOpen && '\n' !in SectionOpen && '/' !in SectionOpen
    ensures '\\' !in SectionClose && '\r' !in SectionClose && '\n' !in SectionClose && '/' !in SectionClose
  {
  }

  /**
   * A token between the recurring markers, inside literal text: the markers
   * become the repeated `RecurringSection` group, whatever names are listed
   * (the markers' own included), around the token's group when its name is
   * listed and around the literal token otherwise.
   */
  lemma SectionAroundToken(a: string, n: string, b: string, names: seq<string>)
    requires IsLiteral(a) && IsLiteral(b)
    requires IsWord(n) && n != [] && n != "RecurringStart" && n != "RecurringEnd"
    requires AllWords(names)
    ensures Synthesize(a + TemplateTexts.StartMarker + TokenScan.Token(n) + TemplateTexts.EndMarker + b, names) ==
      "^" + a + SectionOpen + (if n in names then GroupFor(n) else TokenScan.Token(n)) + SectionClose + b + "$"
  {
    var text := a + TemplateTexts.StartMarker + TokenScan.Token(n) + TemplateTexts.EndMarker + b;
    LiteralIsPlain(a);
    LiteralIsPlain(b);
    SectionPartsArePlain();
    SectionPrepare(a, n, b);
    SubstituteAround(a + SectionOpen, n, SectionClose + b, names);
    var m := if n in names then GroupFor(n) else TokenScan.Token(n);
    var body := (a + SectionOpen) + m + (SectionClose + b);
    if n in names {
      GroupIsPlain(n);
      FinishPlain(body);
    } else {
      FinishAround(a + SectionOpen, n, SectionClose + b);
    }
    assert Finish(SubstituteAll(Prepare(text), names)) == body;
    AnchorFive("^", a, SectionOpen, m, SectionClose, b, "$");
  }

  /** Preparing the marked section: the markers become the section group, the token is escaped. */
  lemma SectionPrepare(a: string, n: string, b: string)
    requires IsLiteral(a) && IsLiteral(b)
    requires IsWord(n) && n != [] && n != "RecurringStart" && n != "RecurringEnd"
    ensures Prepare(a + TemplateTexts.StartMarker + TokenScan.Token(n) + TemplateTexts.EndMarker + b) ==
      (a + SectionOpen) + EscapedToken(n) + (SectionClose + b)
  {
    LiteralIsPlain(a);
    LiteralIsPlain(b);
    SectionPartsArePlain();
    SectionEscape(a, n, b);
    OpenSection(a, n, b);
    CloseSection(a, n, b);
    EscapedTokenChars(n);
    var closed := (a + SectionOpen) + EscapedToken(n) + (SectionClose + b);
    ReplaceAllWithoutFirstChar(closed, "/", "\\/");
  }

  lemma SectionEscape(a: string, n: string, b: string)
    requires IsLiteral(a) && IsLiteral(b) && IsWord(n)
    ensures Escape(a + TemplateTexts.StartMarker + TokenScan.Token(n) + TemplateTexts.EndMarker + b) ==
      a + EscapedStart + EscapedToken(n) + EscapedEnd + b
  {
    var t := TokenScan.Token(n);
    EscapeConcat(a + TemplateTexts.StartMarker + t + TemplateTexts.EndMarker, b);
    EscapeConcat(a + TemplateTexts.StartMarker + t, TemplateTexts.EndMarker);
    EscapeConcat(a + TemplateTexts.StartMarker, t);
    EscapeConcat(a, TemplateTexts.StartMarker);
    EscapeLiteral(a);
    EscapeLiteral(b);
    EscapeToken(n);
    MarkerEscapes();
  }

  /** The escaped start marker becomes the opening of the section group. */
  lemma OpenSection(a: string, n: string, b: string)
    requires IsLiteral(a) && IsLiteral(b) && IsWord(n) && n != [] && n != "RecurringStart" && n != "RecurringEnd"
    ensures ReplaceAll(a + EscapedStart + EscapedToken(n) + EscapedEnd + b, EscapedStart, SectionOpen) ==
      a + SectionOpen + EscapedToken(n) + EscapedEnd + b
  {
    LiteralIsPlain(a);
    LiteralIsPlain(b);
    MarkerNamesAreWords();
    MarkerEscapesAreTokens();
    var x := EscapedToken(n);
    var tail := x + (EscapedEnd + b);
    Nest(a, EscapedStart, x, EscapedEnd, b);
    ReplaceAllPlainPrefix(a, EscapedStart + tail, EscapedStart, SectionOpen);
    ReplaceAllAtFront(tail, EscapedStart, SectionOpen);
    ReplaceOtherToken(n, EscapedEnd + b, "RecurringStart", SectionOpen);
    ReplaceOtherToken("RecurringEnd", b, "RecurringStart", SectionOpen);
    ReplaceAllWithoutFirstChar(b, EscapedStart, SectionOpen);
    Nest(a, SectionOpen, x, EscapedEnd, b);
  }

  /** The escaped end marker becomes the repetition that closes the section group. */
  lemma CloseSection(a: string, n: string, b: string)
    requires IsLiteral(a) && IsLiteral(b) && IsWord(n) && n != [] && n != "RecurringStart" && n != "RecurringEnd"
    ensures ReplaceAll(a + SectionOpen + EscapedToken(n) + EscapedEnd + b, EscapedEnd, SectionClose) ==
      (a + SectionOpen) + EscapedToken(n) + (SectionClose + b)
  {
    LiteralIsPlain(a);
    LiteralIsPlain(b);
    MarkerNamesAreWords();
    MarkerEscapesAreTokens();
    var x := EscapedToken(n);
    var front := a + SectionOpen;
    SectionPartsArePlain();
    Nest(a, SectionOpen, x, EscapedEnd, b);
    ReplaceAllPlainPrefix(front, x + (EscapedEnd + b), EscapedEnd, SectionClose);
    ReplaceOtherToken(n, EscapedEnd + b, "RecurringEnd", SectionClose);
    ReplaceAllAtFront(b, EscapedEnd, SectionClose);
    ReplaceAllWithoutFirstChar(b, EscapedEnd, SectionClose);
    Associate(front, x, SectionClose + b);
  }

  lemma Associate<T>(p: seq<T>, q: seq<T>, r: seq<T>)
    ensures p + (q + r) == p + q + r
  {
  }
}
