/**
 * `ParserService`: a parser and a dictionary of named templates; content is
 * parsed with the template registered under a name, and failures are mapped
 * to the service's own exceptions.
 */
module ParserServices {
  import opened Wrappers
  import Mt940Templates
  import opened Parsing

  /** `IParser.Parse`: any parser, as a function of the content and the template. */
  type ParserFn = (string, Mt940Templates.Mt940Template) -> Result<Table, ParseError>

  /** The exceptions the service raises. */
  datatype ServiceError =
    | ArgumentNull(paramName: string)
    | ArgumentError(message: string)
    | InvalidOperation(message: string, inner: ParseError)

  datatype ParserService = ParserService(parser: ParserFn, templates: map<string, Mt940Templates.Mt940Template>)

  /** The constructor: a null parser is refused first, then a null template dictionary. */
  function New(parser: Option<ParserFn>, templates: Option<map<string, Mt940Templates.Mt940Template>>): (r: Result<ParserService, ServiceError>)
    ensures parser.None? ==> r.Failure? && r.error == ArgumentNull("parser")
    ensures parser.Some? && templates.None? ==> r.Failure? && r.error == ArgumentNull("templates")
    ensures parser.Some? && templates.Some? ==>
      r.Success? && r.value.parser == parser.value && r.value.templates == templates.value
  {
    match parser
    case None => Failure(ArgumentNull("parser"))
    case Some(p) =>
      match templates
      case None => Failure(ArgumentNull("templates"))
      case Some(t) => Success(ParserService(p, t))
  }

  const ParseFailedMessage: string := "Failed to parse content"

  /** The text of the not-found exception, around the text it is given. */
  function NotFoundMessage(subject: string): string {
    "Template \"" + subject + "\" not found."
  }

  /**
   * The lookup and the error mapping, with the not-found message built from
   * a given subject: an unknown name raises an `ArgumentException` without
   * calling the parser; a parser failure is wrapped, with the original as the
   * inner exception; a parser result is returned as it is.
   */
  function Lookup(service: ParserService, content: string, templateName: string, subject: string): Result<Table, ServiceError> {
    if templateName !in service.templates then Failure(ArgumentError(NotFoundMessage(subject)))
    else
      match service.parser(content, service.templates[templateName])
      case Success(t) => Success(t)
      case Failure(e) => Failure(InvalidOperation(ParseFailedMessage, e))
  }

  /** `ParseContent` as written: the not-found message names the content, not the template. */
  function ParseContentAsWritten(service: ParserService, content: string, templateName: string): Result<Table, ServiceError> {
    Lookup(service, content, templateName, content)
  }

  /** `ParseContent` with the not-found message naming the template that was asked for. */
  function ParseContent(service: ParserService, content: string, templateName: string): Result<Table, ServiceError> {
    Lookup(service, content, templateName, templateName)
  }

  /**
   * As written, two unknown template names give the same exception for the
   * same content: the message cannot tell which template was missing.
   */
  lemma NotFoundIgnoresName(service: ParserService, content: string, name1: string, name2: string)
    requires name1 !in service.templates && name2 !in service.templates
    ensures ParseContentAsWritten(service, content, name1) == ParseContentAsWritten(service, content, name2)
    ensures ParseContentAsWritten(service, content, name1).Failure?
  {
  }

  /**
   * The test's call, `ParseContent("content", "example invalid name")` on a
   * service without templates: as written it raises an `ArgumentException`
   * reporting the content as the missing template, not the name asked for.
   */
  lemma NotFoundMessageExample(service: ParserService)
    requires "example invalid name" !in service.templates
    ensures ParseContentAsWritten(service, "content", "example invalid name") ==
      Failure(ArgumentError("Template \"content\" not found."))
    ensures ParseContentAsWritten(service, "content", "example invalid name") !=
      Failure(ArgumentError(NotFoundMessage("example invalid name")))
  {
    assert ParseContentAsWritten(service, "content", "example invalid name") ==
      Failure(ArgumentError(NotFoundMessage("content")));
    assert NotFoundMessage("content") == "Template \"content\" not found.";
    assert NotFoundMessage("content")[10] == 'c';
    assert NotFoundMessage("example invalid name")[10] == 'e';
  }

  /** Corrected, distinct unknown names give distinct messages, each naming its template. */
  lemma NotFoundNamesTemplate(service: ParserService, content: string, name1: string, name2: string)
    requires name1 !in service.templates && name2 !in service.templates
    requires ParseContent(service, content, name1) == ParseContent(service, content, name2)
    ensures name1 == name2
  {
    var m1 := NotFoundMessage(name1);
    var m2 := NotFoundMessage(name2);
    assert |m1| == |name1| + 22 && |m2| == |name2| + 22;
    assert name1 == m1[10..|m1| - 12];
    assert name2 == m2[10..|m2| - 12];
  }

  /** An unknown name is refused whatever the parser, which is never called. */
  lemma UnknownTemplate(service: ParserService, other: ParserFn, content: string, templateName: string)
    requires templateName !in service.templates
    ensures ParseContent(service, content, templateName) == Failure(ArgumentError(NotFoundMessage(templateName)))
    ensures ParseContent(service, content, templateName) ==
      ParseContent(ParserService(other, service.templates), content, templateName)
  {
  }

  /**
   * For a registered name, the result is exactly the parser's on the content
   * and that template, and each parser failure is wrapped with the failure as
   * its inner exception.
   */
  lemma KnownTemplate(service: ParserService, content: string, templateName: string)
    requires templateName in service.templates
    ensures var inner := service.parser(content, service.templates[templateName]);
      && (ParseContent(service, content, templateName).Success? <==> inner.Success?)
      && (inner.Success? ==> ParseContent(service, content, templateName) == Success(inner.value))
      && (inner.Failure? ==>
            ParseContent(service, content, templateName) == Failure(InvalidOperation(ParseFailedMessage, inner.error)))
  {
  }

  /** The model's parser over a given matcher. */
  function ParserOver(matcher: Matcher): ParserFn {
    (content: string, template: Mt940Templates.Mt940Template) => ParseSpec(content, template, matcher)
  }

  /**
   * With the model's parser, an `Argument*` exception of the outer matching
   * reaches the caller as an `InvalidOperationException` whose inner
   * exception is the `ParsingException` for the content and the outer pattern.
   */
  lemma ServiceWrapsParsingError(templates: map<string, Mt940Templates.Mt940Template>, matcher: Matcher, content: string, templateName: string)
    requires templateName in templates
    requires OuterRun(content, templates[templateName], matcher).failure == Some(ArgumentFamily)
    ensures ParseContent(ParserService(ParserOver(matcher), templates), content, templateName) ==
      Failure(InvalidOperation(ParseFailedMessage, ParsingError(content, OuterPattern(templates[templateName]))))
  {
    ParseOutcome(content, templates[templateName], matcher);
  }
}
