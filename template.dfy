/**
 * `Template`: compiles template text into its placeholders, the recurring
 * region and the placeholders inside and outside that region.
 */
module Templates {
  import opened Wrappers
  import opened TextOps
  import opened Lists
  import opened Placeholders
  import opened TemplateTexts
  import TokenScan
  import KeywordTypes

  /** The separator between a token's name and its length hint. */
  const Separator: string := ":"

  /** Which fragment-count guard the body parser applies: the one in the code, or the intended one. */
  datatype Guard = AsWritten | Intended

  /** A token body parsed with separator `:` under the given guard. */
  function ParseBody(body: string, guard: Guard): Result<Placeholder, PlaceholderError> {
    match guard
    case AsWritten => ParseAsWritten(body, Separator)
    case Intended => Parse(body, Separator)
  }

  /** A parser of single token bodies. */
  type BodyParser = string -> Result<Placeholder, PlaceholderError>

  /** The body parser under the given guard. */
  function ParserFor(guard: Guard): BodyParser {
    b => ParseBody(b, guard)
  }

  /** A compiled template; every field is fixed by the constructor. */
  datatype Template = Template(
    templateText: string,
    includeDefaultPlaceholders: bool,
    placeholders: seq<Placeholder>,
    recurringTemplate: string,
    recurringPlaceholders: seq<Placeholder>,
    outerPlaceholders: seq<Placeholder>)

  /** The distinct raw token bodies of a text, in the order they first occur. */
  function TokenBodies(text: string): (r: seq<string>)
    ensures NoDuplicates(r)
    ensures forall b :: b in r <==> b in TokenScan.ScanBodies(text)
  {
    Distinct(TokenScan.ScanBodies(text))
  }

  /**
   * The bodies parsed one after the other; the first body that fails to
   * parse raises its error and nothing after it is parsed.
   */
  function ParseEach(bodies: seq<string>, parse: BodyParser := ParserFor(Intended)): Result<seq<Placeholder>, PlaceholderError>
    decreases |bodies|
  {
    if bodies == [] then Success([])
    else
      match ParseEach(bodies[..|bodies| - 1], parse)
      case Failure(e) => Failure(e)
      case Success(ps) =>
        match parse(bodies[|bodies| - 1])
        case Failure(e) => Failure(e)
        case Success(p) => Success(ps + [p])
  }

  /**
   * Parsing succeeds exactly when every body parses, and then yields the
   * placeholders in body order; otherwise it raises the error of the first
   * body that fails.
   */
  lemma ParseEachMeaning(bodies: seq<string>, parse: BodyParser)
    ensures ParseEach(bodies, parse).Success? <==>
      forall i :: 0 <= i < |bodies| ==> parse(bodies[i]).Success?
    ensures ParseEach(bodies, parse).Success? ==>
      && |ParseEach(bodies, parse).value| == |bodies|
      && forall i :: 0 <= i < |bodies| ==> Success(ParseEach(bodies, parse).value[i]) == parse(bodies[i])
    ensures ParseEach(bodies, parse).Failure? ==>
      exists i :: 0 <= i < |bodies| && parse(bodies[i]) == Failure(ParseEach(bodies, parse).error) &&
        forall k :: 0 <= k < i ==> parse(bodies[k]).Success?
  {
    ParseEachSucceeds(bodies, parse);
    ParseEachFails(bodies, parse);
  }

  /** Success exactly when every body parses, with the placeholders in body order. */
  lemma ParseEachSucceeds(bodies: seq<string>, parse: BodyParser)
    ensures ParseEach(bodies, parse).Success? <==>
      forall i :: 0 <= i < |bodies| ==> parse(bodies[i]).Success?
    ensures ParseEach(bodies, parse).Success? ==>
      && |ParseEach(bodies, parse).value| == |bodies|
      && forall i :: 0 <= i < |bodies| ==> Success(ParseEach(bodies, parse).value[i]) == parse(bodies[i])
  {
    ParseEachAllParse(bodies, parse);
    ParseEachValues(bodies, parse);
  }

  lemma {:induction false} ParseEachAllParse(bodies: seq<string>, parse: BodyParser)
    ensures ParseEach(bodies, parse).Success? <==>
      forall i :: 0 <= i < |bodies| ==> parse(bodies[i]).Success?
    decreases |bodies|
  {
    if bodies != [] {
      var n := |bodies| - 1;
      var front := bodies[..n];
      ParseEachAllParse(front, parse);
      ParseEachLast(bodies, parse);
      if forall i :: 0 <= i < |bodies| ==> parse(bodies[i]).Success? {
        forall i | 0 <= i < n ensures parse(front[i]).Success? {
          assert front[i] == bodies[i];
        }
      } else {
        var i :| 0 <= i < |bodies| && !parse(bodies[i]).Success?;
        if i < n {
          assert front[i] == bodies[i];
        }
      }
    }
  }

  /** The whole succeeds exactly when all but the last body succeed and the last one parses. */
  lemma ParseEachLast(bodies: seq<string>, parse: BodyParser)
    requires bodies != []
    ensures ParseEach(bodies, parse).Success? <==>
      ParseEach(bodies[..|bodies| - 1], parse).Success? && parse(bodies[|bodies| - 1]).Success?
  {
  }

  lemma {:induction false} ParseEachValues(bodies: seq<string>, parse: BodyParser)
    ensures ParseEach(bodies, parse).Success? ==>
      && |ParseEach(bodies, parse).value| == |bodies|
      && forall i :: 0 <= i < |bodies| ==> Success(ParseEach(bodies, parse).value[i]) == parse(bodies[i])
    decreases |bodies|
  {
    if bodies != [] && ParseEach(bodies, parse).Success? {
      var n := |bodies| - 1;
      var front := bodies[..n];
      ParseEachValues(front, parse);
      var ps := ParseEach(front, parse).value;
      var r := ParseEach(bodies, parse).value;
      assert r == ps + [parse(bodies[n]).value];
      forall i | 0 <= i < |bodies| ensures Success(r[i]) == parse(bodies[i]) {
        if i < n {
          assert front[i] == bodies[i] && r[i] == ps[i];
        }
      }
    }
  }

  /** A failure is the error of the first body that does not parse. */
  lemma {:induction false} ParseEachFails(bodies: seq<string>, parse: BodyParser)
    ensures ParseEach(bodies, parse).Failure? ==>
      exists i :: 0 <= i < |bodies| && parse(bodies[i]) == Failure(ParseEach(bodies, parse).error) &&
        forall k :: 0 <= k < i ==> parse(bodies[k]).Success?
    decreases |bodies|
  {
    if bodies != [] {
      var n := |bodies| - 1;
      var front := bodies[..n];
      ParseEachFails(front, parse);
      ParseEachAllParse(front, parse);
      if ParseEach(front, parse).Failure? {
        var i :| 0 <= i < n && parse(front[i]) == Failure(ParseEach(front, parse).error) &&
          forall k :: 0 <= k < i ==> parse(front[k]).Success?;
        assert ParseEach(bodies, parse) == ParseEach(front, parse);
        assert front[i] == bodies[i];
        forall k | 0 <= k < i ensures parse(bodies[k]).Success? {
          assert front[k] == bodies[k];
        }
      } else if parse(bodies[n]).Failure? {
        assert ParseEach(bodies, parse) == Failure(parse(bodies[n]).error);
        forall k | 0 <= k < n ensures parse(bodies[k]).Success? {
          assert front[k] == bodies[k];
        }
      }
    }
  }

  /** One more body: its parse result extends the placeholders or becomes the error. */
  lemma ParseEachStep(bodies: seq<string>, i: nat, parse: BodyParser)
    requires i < |bodies|
    ensures ParseEach(bodies[..i + 1], parse) ==
      match ParseEach(bodies[..i], parse)
      case Failure(e) => Failure(e)
      case Success(ps) =>
        match parse(bodies[i])
        case Failure(e) => Failure(e)
        case Success(p) => Success(ps + [p])
  {
    assert bodies[..i + 1][..i] == bodies[..i];
    assert bodies[..i + 1][i] == bodies[i];
  }

  /** Once a prefix fails, the whole fails with the same error. */
  lemma {:induction false} ParseEachStopsAtFailure(bodies: seq<string>, n: nat, parse: BodyParser)
    requires n <= |bodies| && ParseEach(bodies[..n], parse).Failure?
    ensures ParseEach(bodies, parse) == ParseEach(bodies[..n], parse)
    decreases |bodies| - n
  {
    if n < |bodies| {
      assert bodies[..n + 1][..n] == bodies[..n];
      ParseEachStopsAtFailure(bodies, n + 1, parse);
    } else {
      assert bodies[..n] == bodies;
    }
  }

  /**
   * `ExtractPlaceholders(string)`: the distinct bodies of the text, each
   * parsed with separator `:` under the given guard, in order.
   */
  method ExtractPlaceholders(template: string, guard: Guard) returns (r: Result<seq<Placeholder>, PlaceholderError>)
    ensures r == ParseEach(TokenBodies(template), ParserFor(guard))
  {
    var strings := TokenBodies(template);
    var parse := ParserFor(guard);
    var placeholders: seq<Placeholder> := [];
    var i := 0;
    while i < |strings|
      invariant 0 <= i <= |strings|
      invariant ParseEach(strings[..i], parse) == Success(placeholders)
    {
      ParseEachStep(strings, i, parse);
      var p := parse(strings[i]);
      if p.Failure? {
        ParseEachStopsAtFailure(strings, i + 1, parse);
        return Failure(p.error);
      }
      placeholders := placeholders + [p.value];
      i := i + 1;
    }
    assert strings[..i] == strings;
    return Success(placeholders);
  }

  /** One placeholder without a length for each keyword type after `None`, in enumeration order. */
  function DefaultPlaceholders(): (r: seq<Placeholder>)
    ensures |r| == |KeywordTypes.DefaultNames()|
    ensures forall i :: 0 <= i < |r| ==> r[i] == Create(KeywordTypes.DefaultNames()[i])
  {
    var names := KeywordTypes.DefaultNames();
    seq(|names|, i requires 0 <= i < |names| => Create(names[i]))
  }

  /**
   * `ExtractPlaceholders()`: the defaults when asked for, then the
   * placeholders of the text, with no deduplication between the two.
   */
  function AllPlaceholders(text: string, includeDefaults: bool, guard: Guard := Intended): Result<seq<Placeholder>, PlaceholderError> {
    var defaults := if includeDefaults then DefaultPlaceholders() else [];
    match ParseEach(TokenBodies(text), ParserFor(guard))
    case Failure(e) => Failure(e)
    case Success(ps) => Success(defaults + ps)
  }

  /** The `foreach` over the enumeration that adds every member but `None`. */
  method AddDefaults() returns (result: seq<Placeholder>)
    ensures result == DefaultPlaceholders()
  {
    var members := KeywordTypes.Members;
    ghost var defaults := DefaultPlaceholders();
    result := [];
    var i := 0;
    while i < |members|
      invariant 0 <= i <= |members|
      invariant result == defaults[..if i == 0 then 0 else i - 1]
    {
      KeywordTypes.OnlyFirstIsNone(i);
      if members[i] != KeywordTypes.None {
        DefaultsStep(i);
        result := result + [Create(KeywordTypes.Name(members[i]))];
      }
      i := i + 1;
    }
    assert defaults[..|members| - 1] == defaults;
  }

  /** The defaults up to member `i` extend those before it by that member's placeholder. */
  lemma DefaultsStep(i: nat)
    requires 1 <= i < |KeywordTypes.Members|
    ensures DefaultPlaceholders()[..i] == DefaultPlaceholders()[..i - 1] + [Create(KeywordTypes.Name(KeywordTypes.Members[i]))]
  {
    var d := DefaultPlaceholders();
    assert d[..i] == d[..i - 1] + [d[i - 1]];
  }

  method ExtractAllPlaceholders(text: string, includeDefaults: bool, guard: Guard) returns (r: Result<seq<Placeholder>, PlaceholderError>)
    ensures r == AllPlaceholders(text, includeDefaults, guard)
  {
    var result: seq<Placeholder> := [];
    if includeDefaults {
      result := AddDefaults();
    }
    var scanned := ExtractPlaceholders(text, guard);
    match scanned
    case Failure(e) =>
      return Failure(e);
    case Success(ps) =>
      return Success(result + ps);
  }

  /**
   * The constructor, as the value it builds: a malformed token body raises
   * its error. The rest of the model uses the intended guard; `AsWritten`
   * gives the constructor exactly as the code has it.
   */
  function Compile(text: string, includeDefaults: bool, guard: Guard := Intended): Result<Template, PlaceholderError> {
    var t := NormalizeLineEndings(text);
    match AllPlaceholders(t, includeDefaults, guard)
    case Failure(e) => Failure(e)
    case Success(ps) =>
      var rt := RecurringRegion(t);
      match ParseEach(TokenBodies(rt), ParserFor(guard))
      case Failure(e) => Failure(e)
      case Success(rps) => Success(Template(t, includeDefaults, ps, rt, rps, Except(ps, rps)))
  }

  /**
   * `new Template(templateText, includeDefaultPlaceholders)`: each field
   * derived in turn; `AsWritten` is the constructor exactly as the code has it.
   */
  method New(templateText: string, includeDefaultPlaceholders: bool, guard: Guard) returns (r: Result<Template, PlaceholderError>)
    ensures r == Compile(templateText, includeDefaultPlaceholders, guard)
  {
    var text := NormalizeLineEndings(templateText);
    var placeholders := ExtractAllPlaceholders(text, includeDefaultPlaceholders, guard);
    if placeholders.Failure? {
      return Failure(placeholders.error);
    }
    var recurringTemplate := RecurringRegion(text);
    var recurringPlaceholders := ExtractPlaceholders(recurringTemplate, guard);
    if recurringPlaceholders.Failure? {
      return Failure(recurringPlaceholders.error);
    }
    var outer := Except(placeholders.value, recurringPlaceholders.value);
    return Success(Template(text, includeDefaultPlaceholders, placeholders.value, recurringTemplate,
      recurringPlaceholders.value, outer));
  }

  /**
   * The partition: outer placeholders are the placeholders not equal (by name
   * and length) to a recurring one, each once, in the order of the
   * placeholders; the text is the normalised input and the region is read
   * from it.
   */
  lemma TemplatePartition(text: string, includeDefaults: bool)
    requires Compile(text, includeDefaults).Success?
    ensures var t := Compile(text, includeDefaults).value;
      && t.templateText == NormalizeLineEndings(text)
      && t.recurringTemplate == RecurringRegion(t.templateText)
      && (forall x :: x in t.outerPlaceholders <==> x in t.placeholders && x !in t.recurringPlaceholders)
      && NoDuplicates(t.outerPlaceholders)
      && (forall i, j :: 0 <= i < j < |t.outerPlaceholders| ==>
            FirstIndex(t.placeholders, t.outerPlaceholders[i]) < FirstIndex(t.placeholders, t.outerPlaceholders[j]))
  {
  }

  /**
   * Asking for the defaults neither adds nor removes an error, and puts the
   * twelve defaults in front of the placeholders the text itself gives.
   */
  lemma DefaultsComeFirst(text: string)
    ensures Compile(text, true).Success? <==> Compile(text, false).Success?
    ensures Compile(text, true).Success? ==>
      Compile(text, true).value.placeholders == DefaultPlaceholders() + Compile(text, false).value.placeholders
    ensures |DefaultPlaceholders()| == 12
    ensures forall i :: 0 <= i < 12 ==> DefaultPlaceholders()[i] == Placeholder(KeywordTypes.DefaultNames()[i], NoLength)
  {
    CompileWithDefaults(text);
    DefaultPlaceholdersShape();
  }

  lemma CompileWithDefaults(text: string)
    ensures Compile(text, true).Success? <==> Compile(text, false).Success?
    ensures Compile(text, true).Success? ==>
      Compile(text, true).value.placeholders == DefaultPlaceholders() + Compile(text, false).value.placeholders
  {
    var t := NormalizeLineEndings(text);
    AllPlaceholdersWithDefaults(t);
  }

  lemma AllPlaceholdersWithDefaults(t: string)
    ensures AllPlaceholders(t, true).Success? <==> AllPlaceholders(t, false).Success?
    ensures AllPlaceholders(t, false).Success? ==>
      AllPlaceholders(t, true).value == DefaultPlaceholders() + AllPlaceholders(t, false).value
  {
    var parsed := ParseEach(TokenBodies(t));
    match parsed
    case Failure(e) =>
      assert AllPlaceholders(t, false) == Failure(e) == AllPlaceholders(t, true);
    case Success(ps) =>
      assert [] + ps == ps;
      assert AllPlaceholders(t, false) == Success(ps);
      assert AllPlaceholders(t, true) == Success(DefaultPlaceholders() + ps);
  }

  lemma DefaultPlaceholdersShape()
    ensures |DefaultPlaceholders()| == 12
    ensures forall i :: 0 <= i < 12 ==> DefaultPlaceholders()[i] == Placeholder(KeywordTypes.DefaultNames()[i], NoLength)
  {
    assert |KeywordTypes.Members| == 13;
  }

  /**
   * Under either guard, construction fails exactly when a token body of the
   * text or of its recurring region fails to parse; a failing body of the
   * text raises the error of the first such body.
   */
  lemma CompileFailsExactly(text: string, includeDefaults: bool, guard: Guard)
    ensures var t := NormalizeLineEndings(text);
      var bodies := TokenBodies(t);
      var inner := TokenBodies(RecurringRegion(t));
      Compile(text, includeDefaults, guard).Failure? <==>
        || (exists i :: 0 <= i < |bodies| && ParseBody(bodies[i], guard).Failure?)
        || (exists i :: 0 <= i < |inner| && ParseBody(inner[i], guard).Failure?)
    ensures var bodies := TokenBodies(NormalizeLineEndings(text));
      (exists i :: 0 <= i < |bodies| && ParseBody(bodies[i], guard).Failure?) ==>
        && Compile(text, includeDefaults, guard).Failure?
        && exists i :: 0 <= i < |bodies| && ParseBody(bodies[i], guard) == Failure(Compile(text, includeDefaults, guard).error)
             && forall k :: 0 <= k < i ==> ParseBody(bodies[k], guard).Success?
  {
    CompileFailsWhen(text, includeDefaults, guard);
    CompileFailsFirst(text, includeDefaults, guard);
  }

  lemma CompileFailsWhen(text: string, includeDefaults: bool, guard: Guard)
    ensures var t := NormalizeLineEndings(text);
      var bodies := TokenBodies(t);
      var inner := TokenBodies(RecurringRegion(t));
      Compile(text, includeDefaults, guard).Failure? <==>
        || (exists i :: 0 <= i < |bodies| && ParseBody(bodies[i], guard).Failure?)
        || (exists i :: 0 <= i < |inner| && ParseBody(inner[i], guard).Failure?)
  {
    var t := NormalizeLineEndings(text);
    ParseEachAllParse(TokenBodies(t), ParserFor(guard));
    ParseEachAllParse(TokenBodies(RecurringRegion(t)), ParserFor(guard));
  }

  lemma CompileFailsFirst(text: string, includeDefaults: bool, guard: Guard)
    ensures var bodies := TokenBodies(NormalizeLineEndings(text));
      (exists i :: 0 <= i < |bodies| && ParseBody(bodies[i], guard).Failure?) ==>
        && Compile(text, includeDefaults, guard).Failure?
        && exists i :: 0 <= i < |bodies| && ParseBody(bodies[i], guard) == Failure(Compile(text, includeDefaults, guard).error)
             && forall k :: 0 <= k < i ==> ParseBody(bodies[k], guard).Success?
  {
    var t := NormalizeLineEndings(text);
    ParseEachAllParse(TokenBodies(t), ParserFor(guard));
    ParseEachFails(TokenBodies(t), ParserFor(guard));
  }

  /**
   * The two guards build the same template, or raise the same error,
   * whenever every token body of the text and of its region splits into one
   * or two fragments.
   */
  lemma CompileAgreesWithAsWritten(text: string, includeDefaults: bool)
    requires var t := NormalizeLineEndings(text);
      && (forall b :: b in TokenBodies(t) ==> |Fragments(b, Separator)| in {1, 2})
      && (forall b :: b in TokenBodies(RecurringRegion(t)) ==> |Fragments(b, Separator)| in {1, 2})
    ensures Compile(text, includeDefaults, AsWritten) == Compile(text, includeDefaults, Intended)
  {
    var t := NormalizeLineEndings(text);
    ParseEachAgrees(TokenBodies(t));
    ParseEachAgrees(TokenBodies(RecurringRegion(t)));
  }

  lemma {:induction false} ParseEachAgrees(bodies: seq<string>)
    requires forall b :: b in bodies ==> |Fragments(b, Separator)| in {1, 2}
    ensures ParseEach(bodies, ParserFor(AsWritten)) == ParseEach(bodies, ParserFor(Intended))
    decreases |bodies|
  {
    if bodies != [] {
      var n := |bodies| - 1;
      assert forall b :: b in bodies[..n] ==> b in bodies;
      ParseEachAgrees(bodies[..n]);
      assert bodies[n] in bodies;
      ParseAgreesWithAsWritten(bodies[n], Separator);
    }
  }

  /**
   * A body of three fragments: as written the template keeps a placeholder
   * and drops the third fragment; with the intended guard it is refused.
   */
  lemma ThreeFragmentTemplate()
    ensures Compile("{{a:1:b}}", false, AsWritten) ==
      Success(Template("{{a:1:b}}", false, [Placeholder("a", 1)], [], [], [Placeholder("a", 1)]))
    ensures Compile("{{a:1:b}}", false, Intended) == Failure(UnableToDivide)
  {
    ThreeFragmentAsWritten();
    ThreeFragmentIntended();
  }

  lemma ThreeFragmentAsWritten()
    ensures Compile("{{a:1:b}}", false, AsWritten) ==
      Success(Template("{{a:1:b}}", false, [Placeholder("a", 1)], [], [], [Placeholder("a", 1)]))
  {
    var n := "a:1:b";
    assert "{{a:1:b}}" == TokenScan.Token(n);
    AsWrittenIgnoresExtraFragments();
    SingleTokenCompile(n, AsWritten);
  }

  lemma ThreeFragmentIntended()
    ensures Compile("{{a:1:b}}", false, Intended) == Failure(UnableToDivide)
  {
    var n := "a:1:b";
    assert "{{a:1:b}}" == TokenScan.Token(n);
    ParseRefusesWrongCounts();
    SingleTokenCompile(n, Intended);
  }

  /**
   * A body of no fragment: as written the template fails on an out-of-range
   * index; with the intended guard it is refused as undividable.
   */
  lemma EmptyFragmentTemplate()
    ensures Compile("{{:}}", false, AsWritten) == Failure(IndexOutOfRange)
    ensures Compile("{{:}}", false, Intended) == Failure(UnableToDivide)
  {
    var n := ":";
    assert "{{:}}" == TokenScan.Token(n);
    assert SplitOn("", ":") == [""];
    assert SplitOn(n, ":") == [""] + SplitOn("", ":");
    assert Fragments(n, Separator) == [];
    SingleTokenCompile(n, AsWritten);
    SingleTokenCompile(n, Intended);
  }

  /** A template that is one short token: the body's parse decides everything. */
  lemma SingleTokenCompile(n: string, guard: Guard)
    requires |n| < 10 && '}' !in n && '\r' !in n && '{' !in n
    ensures var t := TokenScan.Token(n);
      Compile(t, false, guard) ==
        match ParseBody(n, guard)
        case Failure(e) => Failure(e)
        case Success(p) => Success(Template(t, false, [p], [], [], [p]))
  {
    SingleTokenText(n);
    assert [n][..0] == [];
    match ParseBody([n][0], guard)
    case Failure(e) =>
      assert ParseEach([n], ParserFor(guard)) == Failure(e);
      assert AllPlaceholders(TokenScan.Token(n), false, guard) == Failure(e);
    case Success(p) =>
      assert ParseEach([n], ParserFor(guard)) == Success([] + [p]);
      assert [] + [p] == [p];
      assert Elements<Placeholder>([]) == {};
      DistinctOfDistinct([p], {});
  }

  /** A text that is one short token: its only body, and no region. */
  lemma SingleTokenText(n: string)
    requires |n| < 10 && '}' !in n && '\r' !in n && '{' !in n
    ensures NormalizeLineEndings(TokenScan.Token(n)) == TokenScan.Token(n)
    ensures TokenBodies(TokenScan.Token(n)) == [n]
    ensures RecurringRegion(TokenScan.Token(n)) == [] && TokenBodies([]) == []
  {
    var t := TokenScan.Token(n);
    TokenHasNoCr(n);
    NormalizeWithoutCr(t);
    TokenScan.ScanToken(n, []);
    assert t + [] == t;
    assert TokenScan.ScanBodies([]) == [];
    DistinctOfDistinct([n], {});
    assert Elements<string>([]) == {};
    RecurringRegionWithoutStart(t);
  }

  /** Parsed bodies, one placeholder each, in order; each body comes from a token of the text. */
  lemma ParsedBodiesAreTokens(text: string, ps: seq<Placeholder>)
    requires ParseEach(TokenBodies(text)) == Success(ps)
    ensures var bodies := TokenBodies(text);
      && |ps| == |bodies|
      && forall i :: 0 <= i < |bodies| ==>
           Parse(bodies[i], Separator) == Success(ps[i]) && Contains(text, TokenScan.Token(bodies[i]))
  {
    var bodies := TokenBodies(text);
    ParseEachMeaning(bodies, ParserFor(Intended));
    TokenScan.ScannedBodiesAreTokens(text);
    assert forall i :: 0 <= i < |bodies| ==> bodies[i] in bodies;
  }

  /**
   * After the defaults, the placeholders are the distinct token bodies of
   * the text, parsed, one each and in order; the recurring placeholders are
   * those of the region likewise. Every body is the body of a `{{...}}`
   * token of the text it came from.
   */
  lemma PlaceholdersComeFromTokens(text: string, includeDefaults: bool)
    requires Compile(text, includeDefaults).Success?
    ensures var t := Compile(text, includeDefaults).value;
      var d := if includeDefaults then 12 else 0;
      var bodies := TokenBodies(t.templateText);
      && |t.placeholders| == d + |bodies|
      && forall i :: 0 <= i < |bodies| ==>
           Parse(bodies[i], Separator) == Success(t.placeholders[d + i])
           && Contains(t.templateText, TokenScan.Token(bodies[i]))
    ensures var t := Compile(text, includeDefaults).value;
      var bodies := TokenBodies(t.recurringTemplate);
      && |t.recurringPlaceholders| == |bodies|
      && forall i :: 0 <= i < |bodies| ==>
           Parse(bodies[i], Separator) == Success(t.recurringPlaceholders[i])
           && Contains(t.recurringTemplate, TokenScan.Token(bodies[i]))
  {
    var t := Compile(text, includeDefaults).value;
    var ps := ParseEach(TokenBodies(t.templateText)).value;
    var defaults := if includeDefaults then DefaultPlaceholders() else [];
    assert t.placeholders == defaults + ps;
    ParsedBodiesAreTokens(t.templateText, ps);
    ParsedBodiesAreTokens(t.recurringTemplate, t.recurringPlaceholders);
  }

  /** Without a recurring region nothing is recurring and every distinct placeholder is outer. */
  lemma NoRegionMeansAllOuter(text: string, includeDefaults: bool)
    requires Compile(text, includeDefaults).Success?
    requires Compile(text, includeDefaults).value.recurringTemplate == []
    ensures var t := Compile(text, includeDefaults).value;
      t.recurringPlaceholders == [] && t.outerPlaceholders == Distinct(t.placeholders)
  {
    assert TokenScan.ScanBodies([]) == [];
    assert Elements<Placeholder>([]) == {};
  }

  /** The defaults are pairwise distinct. */
  lemma DefaultsAreDistinct()
    ensures NoDuplicates(DefaultPlaceholders())
  {
    var d := DefaultPlaceholders();
    KeywordTypes.MembersAreTheEnumeration(KeywordTypes.None);
    forall i, j | 0 <= i < j < |d| ensures d[i] != d[j] {
      KeywordTypes.NamesAreDistinct(KeywordTypes.Members[i + 1], KeywordTypes.Members[j + 1]);
    }
  }

  /** Text without a brace has neither tokens nor a recurring region. */
  lemma NoBraceNoTokens(t: string)
    requires '{' !in t
    ensures TokenBodies(t) == [] && RecurringRegion(t) == []
  {
    TokenScan.ScanSimple(t, []);
    forall i: nat | i + |StartMarker| <= |t| ensures !OccursAt(t, StartMarker, i) {
      assert t[i..i + |StartMarker|][0] == t[i];
    }
    RecurringRegionWithoutStart(t);
  }

  /** Text without a brace has no tokens and no region: at most the defaults, all of them outer. */
  lemma TemplateWithoutTokens(text: string, includeDefaults: bool)
    requires '{' !in text
    ensures var defaults := if includeDefaults then DefaultPlaceholders() else [];
      Compile(text, includeDefaults) ==
        Success(Template(NormalizeLineEndings(text), includeDefaults, defaults, [], [], defaults))
  {
    var t := NormalizeLineEndings(text);
    var defaults := if includeDefaults then DefaultPlaceholders() else [];
    ReplaceAllKeepsOut(text, CrLf, Lf, '{');
    NoBraceNoTokens(t);
    assert TokenBodies([]) == [] by {
      assert TokenScan.ScanBodies([]) == [];
    }
    assert AllPlaceholders(t, includeDefaults) == Success(defaults + []);
    assert defaults + [] == defaults;
    assert Elements<Placeholder>([]) == {};
    DefaultsAreDistinct();
    DistinctOfDistinct(defaults, {});
  }

  /** Two distinct simple names, parsed in turn, give placeholders without lengths. */
  lemma ParseTwoNames(n1: string, n2: string)
    requires n1 != [] && n2 != [] && ':' !in n1 && ':' !in n2
    ensures ParseEach([n1, n2]) == Success([Create(n1), Create(n2)])
  {
    ParseRoundTrip(n1, 0);
    ParseRoundTrip(n2, 0);
    assert [n1][..0] == [];
    assert Parse([n1][0], Separator) == Success(Create(n1));
    assert [] + [Create(n1)] == [Create(n1)];
    assert ParseEach([n1]) == Success([Create(n1)]);
    assert [n1, n2][..1] == [n1];
    assert Parse([n1, n2][1], Separator) == Success(Create(n2));
    assert [Create(n1)] + [Create(n2)] == [Create(n1), Create(n2)];
  }

  /**
   * Two tokens without length hints, each after plain text: the
   * placeholders are the two names in order, each without a length.
   */
  lemma TwoTokenTemplate(p1: string, n1: string, p2: string, n2: string)
    requires '{' !in p1 && '{' !in p2 && '\r' !in p1 && '\r' !in p2
    requires n1 != [] && n2 != [] && n1 != n2
    requires '}' !in n1 && '}' !in n2 && ':' !in n1 && ':' !in n2 && '\r' !in n1 && '\r' !in n2
    ensures var s := p1 + TokenScan.Token(n1) + p2 + TokenScan.Token(n2);
      AllPlaceholders(NormalizeLineEndings(s), false) == Success([Create(n1), Create(n2)])
  {
    var s := p1 + TokenScan.Token(n1) + p2 + TokenScan.Token(n2);
    TokenHasNoCr(n1);
    TokenHasNoCr(n2);
    assert '\r' !in s;
    NormalizeWithoutCr(s);
    TokenScan.ScanTwoTokens(p1, n1, p2, n2);
    DistinctOfDistinct([n1, n2], {});
    assert TokenBodies(s) == [n1, n2];
    ParseTwoNames(n1, n2);
    assert [] + [Create(n1), Create(n2)] == [Create(n1), Create(n2)];
  }

  lemma TokenHasNoCr(n: string)
    requires '\r' !in n
    ensures '\r' !in TokenScan.Token(n)
  {
    assert TokenScan.Token(n) == "{{" + n + "}}";
  }

  /**
   * When the region holds no `:`, the end marker's placeholder is never a
   * recurring one, since the region stops at the first end marker; so it is
   * an outer placeholder whenever it is a placeholder, in particular when
   * the defaults are included.
   */
  lemma RecurringEndStaysOuter(text: string, includeDefaults: bool)
    requires Compile(text, includeDefaults).Success?
    requires ':' !in Compile(text, includeDefaults).value.recurringTemplate
    ensures var t := Compile(text, includeDefaults).value;
      && Create("RecurringEnd") !in t.recurringPlaceholders
      && (Create("RecurringEnd") in t.placeholders ==> Create("RecurringEnd") in t.outerPlaceholders)
      && (includeDefaults ==> Create("RecurringEnd") in t.outerPlaceholders)
  {
    var t := Compile(text, includeDefaults).value;
    RecurringRegionIsFirstDelimited(t.templateText);
    NoMarkerPlaceholder(t.recurringTemplate, t.recurringPlaceholders, "RecurringEnd");
    if includeDefaults {
      RecurringEndIsDefault();
      assert t.placeholders == DefaultPlaceholders() + ParseEach(TokenBodies(t.templateText)).value;
    }
  }

  /** A body without `:` parses to a placeholder named by the whole body, without a length. */
  lemma BodyWithoutColon(b: string, p: Placeholder)
    requires ':' !in b && Parse(b, Separator) == Success(p)
    ensures p == Create(b)
  {
    SplitOnNoSeparator(b, ':');
    assert ":" == [':'];
    assert Fragments(b, Separator) == NonEmpty([b]);
    assert [b][1..] == [];
    assert NonEmpty([b]) == if b == [] then [] else [b];
  }

  /** Text without `:` and without the token of `name` yields no placeholder named `name`. */
  lemma NoMarkerPlaceholder(region: string, rps: seq<Placeholder>, name: string)
    requires ParseEach(TokenBodies(region)) == Success(rps)
    requires ':' !in region && !Contains(region, TokenScan.Token(name))
    ensures Create(name) !in rps
  {
    var inner := TokenBodies(region);
    ParsedBodiesAreTokens(region, rps);
    forall i | 0 <= i < |rps| ensures rps[i] != Create(name) {
      var b := inner[i];
      TokenScan.TokenBodyCharsInText(region, b, ':');
      BodyWithoutColon(b, rps[i]);
      assert TokenScan.Token(b) != TokenScan.Token(name);
    }
  }

  /**
   * When the region holds no `:` and no second start marker, the start
   * marker's placeholder is never a recurring one; so it is an outer
   * placeholder whenever it is a placeholder, in particular when the
   * defaults are included.
   */
  lemma RecurringStartStaysOuter(text: string, includeDefaults: bool)
    requires Compile(text, includeDefaults).Success?
    requires ':' !in Compile(text, includeDefaults).value.recurringTemplate
    requires !Contains(Compile(text, includeDefaults).value.recurringTemplate, StartMarker)
    ensures var t := Compile(text, includeDefaults).value;
      && Create("RecurringStart") !in t.recurringPlaceholders
      && (Create("RecurringStart") in t.placeholders ==> Create("RecurringStart") in t.outerPlaceholders)
      && (includeDefaults ==> Create("RecurringStart") in t.outerPlaceholders)
  {
    var t := Compile(text, includeDefaults).value;
    NoMarkerPlaceholder(t.recurringTemplate, t.recurringPlaceholders, "RecurringStart");
    if includeDefaults {
      RecurringStartIsDefault();
      assert t.placeholders == DefaultPlaceholders() + ParseEach(TokenBodies(t.templateText)).value;
    }
  }

  /**
   * A second start marker right after the first is the region: the start
   * marker's placeholder is then recurring, and not outer although the
   * defaults include it.
   */
  lemma NestedStartIsRecurring()
    ensures var r := Compile(StartMarker + StartMarker + EndMarker, true);
      && r.Success?
      && r.value.recurringTemplate == StartMarker
      && r.value.recurringPlaceholders == [Create("RecurringStart")]
      && Create("RecurringStart") in r.value.placeholders
      && Create("RecurringStart") !in r.value.outerPlaceholders
  {
    var text := StartMarker + StartMarker + EndMarker;
    NestedStartText();
    NestedStartBodiesParse();
    OneRecurringBody(text, "RecurringStart", Create("RecurringStart"));
    RecurringStartIsDefault();
  }

  lemma NestedStartBodiesParse()
    ensures TokenScan.ScanBodies(StartMarker) == ["RecurringStart"]
    ensures Parse("RecurringStart", Separator) == Success(Create("RecurringStart"))
    ensures forall x :: x in TokenScan.ScanBodies(StartMarker + StartMarker + EndMarker) ==> Parse(x, Separator).Success?
  {
    NestedStartBodies();
    MarkerNameParses("RecurringStart");
    MarkerNameParses("RecurringEnd");
  }

  /**
   * A `{{RecurringEnd:}}` token in the region parses to the end marker's
   * placeholder, which is then recurring, and not outer although the
   * defaults include it.
   */
  lemma EndWithColonIsRecurring()
    ensures var r := Compile(StartMarker + TokenScan.Token("RecurringEnd:") + EndMarker, true);
      && r.Success?
      && r.value.recurringPlaceholders == [Create("RecurringEnd")]
      && Create("RecurringEnd") in r.value.placeholders
      && Create("RecurringEnd") !in r.value.outerPlaceholders
  {
    var text := StartMarker + TokenScan.Token("RecurringEnd:") + EndMarker;
    EndWithColonText();
    EndWithColonBodiesParse();
    OneRecurringBody(text, "RecurringEnd:", Create("RecurringEnd"));
    RecurringEndIsDefault();
  }

  lemma EndWithColonBodiesParse()
    ensures TokenScan.ScanBodies(TokenScan.Token("RecurringEnd:")) == ["RecurringEnd:"]
    ensures Parse("RecurringEnd:", Separator) == Success(Create("RecurringEnd"))
    ensures forall x :: x in TokenScan.ScanBodies(StartMarker + TokenScan.Token("RecurringEnd:") + EndMarker) ==>
      Parse(x, Separator).Success?
  {
    EndWithColonBodies();
    MarkerNameParses("RecurringStart");
    MarkerNameParses("RecurringEnd");
    EndNameWithColonParses();
  }

  /**
   * A normalised text whose bodies all parse, with one body in its region:
   * that body's placeholder is the only recurring one, so it is not outer.
   */
  lemma OneRecurringBody(text: string, b: string, p: Placeholder)
    requires NormalizeLineEndings(text) == text
    requires forall x :: x in TokenScan.ScanBodies(text) ==> Parse(x, Separator).Success?
    requires TokenScan.ScanBodies(RecurringRegion(text)) == [b]
    requires Parse(b, Separator) == Success(p)
    ensures var r := Compile(text, true);
      && r.Success?
      && r.value.recurringTemplate == RecurringRegion(text)
      && r.value.recurringPlaceholders == [p]
      && r.value.placeholders == DefaultPlaceholders() + ParseEach(TokenBodies(text)).value
      && p !in r.value.outerPlaceholders
  {
    BodiesParse(text);
    DistinctOfDistinct([b], {});
    ParseEachMeaning([b], ParserFor(Intended));
  }

  /** A marker name parses to the marker's placeholder. */
  lemma MarkerNameParses(name: string)
    requires name == "RecurringStart" || name == "RecurringEnd"
    ensures Parse(name, Separator) == Success(Create(name))
  {
    ParseRoundTrip(name, 0);
  }

  /** The end marker's name followed by `:` parses to the end marker's placeholder. */
  lemma EndNameWithColonParses()
    ensures Parse("RecurringEnd:", Separator) == Success(Create("RecurringEnd"))
  {
    var name := "RecurringEnd";
    MarkerNameParses(name);
    TrailingSeparatorIgnored(name);
    assert name + ":" == "RecurringEnd:";
  }

  /** A text whose every scanned body parses has its distinct bodies parse. */
  lemma BodiesParse(text: string)
    requires forall b :: b in TokenScan.ScanBodies(text) ==> Parse(b, Separator).Success?
    ensures ParseEach(TokenBodies(text)).Success?
  {
    var bodies := TokenBodies(text);
    ParseEachMeaning(bodies, ParserFor(Intended));
    assert forall i :: 0 <= i < |bodies| ==> bodies[i] in TokenScan.ScanBodies(text);
  }

  /** The start marker's placeholder is the second last default. */
  lemma RecurringStartIsDefault()
    ensures DefaultPlaceholders()[10] == Create("RecurringStart")
  {
    KeywordTypes.MembersAreTheEnumeration(KeywordTypes.None);
  }

  /** The end marker's placeholder is the last default. */
  lemma RecurringEndIsDefault()
    ensures DefaultPlaceholders()[11] == Create("RecurringEnd")
  {
    KeywordTypes.MembersAreTheEnumeration(KeywordTypes.None);
  }
}
