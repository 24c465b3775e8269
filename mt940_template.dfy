/**
 * `MT940Template`: the revision of the template that keeps placeholders as
 * raw token bodies (no length hints) and scans them from the text as given,
 * before line endings are normalised.
 */
module Mt940Templates {
  import opened Wrappers
  import opened TextOps
  import opened Lists
  import opened TemplateTexts
  import opened TokenScan

  datatype Mt940Template = Mt940Template(
    templateText: string,
    placeholders: seq<string>,
    outerPlaceholders: seq<string>,
    recurringPlaceholders: seq<string>,
    recurringTemplate: string)

  /** The exception a null argument raises. */
  datatype ArgumentError = ArgumentNull

  /**
   * `ExtractPlaceholders(string)`: a null text is refused; otherwise the
   * distinct token bodies, unsplit, in the order they first occur.
   */
  function ExtractPlaceholders(template: Option<string>): (r: Result<seq<string>, ArgumentError>)
    ensures template.None? <==> r == Failure(ArgumentNull)
    ensures template.Some? ==>
      && r.Success?
      && NoDuplicates(r.value)
      && (forall b :: b in r.value <==> b in ScanBodies(template.value))
      && (forall i, j :: 0 <= i < j < |r.value| ==>
            FirstIndex(ScanBodies(template.value), r.value[i]) < FirstIndex(ScanBodies(template.value), r.value[j]))
  {
    match template
    case None => Failure(ArgumentNull)
    case Some(text) => Success(Distinct(ScanBodies(text)))
  }

  /**
   * `ExtractRecurringTemplate(string)`: the argument is not used; the region
   * is always read from the stored, normalised `templateText`.
   */
  function ExtractRecurringTemplate(templateText: string, template: string): string {
    RecurringRegion(templateText)
  }

  /** `new MT940Template(templateText)`. */
  function New(templateText: string): Mt940Template {
    var text := NormalizeLineEndings(templateText);
    var placeholders := ExtractPlaceholders(Some(templateText)).value;
    var recurring := ExtractRecurringTemplate(text, templateText);
    var recurringPlaceholders := ExtractPlaceholders(Some(recurring)).value;
    Mt940Template(text, placeholders, Except(placeholders, recurringPlaceholders), recurringPlaceholders, recurring)
  }

  /**
   * The fields: the stored text is normalised, the placeholders are the
   * distinct bodies of the text as given, and the region and its
   * placeholders come from the normalised text; outer placeholders are the
   * placeholders not in the region, once each and in order.
   */
  lemma Mt940Partition(templateText: string)
    ensures var t := New(templateText);
      && t.templateText == NormalizeLineEndings(templateText)
      && t.recurringTemplate == RecurringRegion(t.templateText)
      && NoDuplicates(t.placeholders)
      && (forall b :: b in t.placeholders <==> b in ScanBodies(templateText))
      && (forall x :: x in t.outerPlaceholders <==> x in t.placeholders && x !in t.recurringPlaceholders)
      && NoDuplicates(t.outerPlaceholders)
      && (forall i, j :: 0 <= i < j < |t.outerPlaceholders| ==>
            FirstIndex(t.placeholders, t.outerPlaceholders[i]) < FirstIndex(t.placeholders, t.outerPlaceholders[j]))
  {
  }

  /**
   * The end marker's own name is never a recurring placeholder, since the
   * region stops at the first end marker; so when the text names it, it is
   * an outer placeholder.
   */
  lemma RecurringEndStaysOuter(templateText: string)
    ensures "RecurringEnd" !in New(templateText).recurringPlaceholders
    ensures "RecurringEnd" in New(templateText).placeholders ==> "RecurringEnd" in New(templateText).outerPlaceholders
  {
    var t := New(templateText);
    RecurringRegionIsFirstDelimited(t.templateText);
    ScannedBodiesAreTokens(t.recurringTemplate);
    assert Token("RecurringEnd") == EndMarker;
  }

  /**
   * The start marker's own name is recurring only when the region itself
   * holds a start marker: otherwise it is never a recurring placeholder, and
   * when the text names it, it is an outer placeholder.
   */
  lemma RecurringStartStaysOuter(templateText: string)
    requires !Contains(New(templateText).recurringTemplate, StartMarker)
    ensures "RecurringStart" !in New(templateText).recurringPlaceholders
    ensures "RecurringStart" in New(templateText).placeholders ==> "RecurringStart" in New(templateText).outerPlaceholders
  {
    ScannedBodiesAreTokens(New(templateText).recurringTemplate);
  }

  /**
   * A second start marker right after the first: it is the region, so the
   * start marker's own name is recurring and not outer.
   */
  lemma NestedStartIsRecurring()
    ensures var t := New(StartMarker + StartMarker + EndMarker);
      && t.recurringTemplate == StartMarker
      && t.recurringPlaceholders == ["RecurringStart"]
      && "RecurringStart" in t.placeholders
      && "RecurringStart" !in t.outerPlaceholders
  {
    var text := StartMarker + StartMarker + EndMarker;
    NestedStartText();
    NestedStartBodies();
    DistinctOfDistinct(["RecurringStart"], {});
  }

  /**
   * When no start marker is followed by an end marker, the region is empty,
   * nothing is recurring and every placeholder is outer.
   */
  lemma Mt940NoRegion(templateText: string)
    requires forall i: nat, r :: !DelimitedAt(NormalizeLineEndings(templateText), i, r)
    ensures var t := New(templateText);
      t.recurringTemplate == [] && t.recurringPlaceholders == [] && t.outerPlaceholders == t.placeholders
  {
    var t := New(templateText);
    RecurringRegionIsFirstDelimited(t.templateText);
    assert ScanBodies([]) == [];
    assert Elements<string>([]) == {};
    DistinctOfDistinct(t.placeholders, {});
  }

  /**
   * A CRLF inside a token body stays in the placeholder, because the scan
   * reads the text as given, while the same scan of the stored text sees LF.
   */
  lemma PlaceholdersKeepCrLf(a: string, b: string)
    requires '}' !in a && '}' !in b && '\r' !in a && '\r' !in b
    ensures New(Token(a + CrLf + b)).placeholders == [a + CrLf + b]
    ensures ExtractPlaceholders(Some(New(Token(a + CrLf + b)).templateText)) == Success([a + Lf + b])
  {
    var n := a + CrLf + b;
    ScanSimple([], n);
    DistinctOfDistinct([n], {});
    var m := a + Lf + b;
    NormalizeTokenBody(a, b);
    ScanSimple([], m);
    DistinctOfDistinct([m], {});
  }

  lemma NormalizeTokenBody(a: string, b: string)
    requires '\r' !in a && '\r' !in b
    ensures NormalizeLineEndings(Token(a + CrLf + b)) == Token(a + Lf + b)
  {
    var x := Open + a;
    var y := b + Close;
    assert '\r' !in x && '\r' !in y;
    assert Token(a + CrLf + b) == x + (CrLf + y);
    NormalizeAroundCrLf(x, y);
    assert x + (Lf + y) == Token(a + Lf + b);
  }

  /** One CRLF between texts without a carriage return becomes one LF. */
  lemma NormalizeAroundCrLf(x: string, y: string)
    requires '\r' !in x && '\r' !in y
    ensures NormalizeLineEndings(x + (CrLf + y)) == x + (Lf + y)
  {
    assert CrLf[0] == '\r';
    ReplaceAllPlainPrefix(x, CrLf + y, CrLf, Lf);
    ReplaceAllAtFront(y, CrLf, Lf);
    NormalizeWithoutCr(y);
  }

  /** Two tokens, each after plain text: the placeholders are the two bodies in order. */
  lemma TwoTokenTemplate(p1: string, n1: string, p2: string, n2: string)
    requires '{' !in p1 && '{' !in p2 && '}' !in n1 && '}' !in n2 && n1 != n2
    ensures New(p1 + Token(n1) + p2 + Token(n2)).placeholders == [n1, n2]
  {
    var text := p1 + Token(n1) + p2 + Token(n2);
    NewPlaceholders(text);
    ScanTwoTokens(p1, n1, p2, n2);
    DistinctOfDistinct([n1, n2], {});
  }

  /** The placeholders of a new template are the distinct token bodies of the text as given. */
  lemma NewPlaceholders(templateText: string)
    ensures New(templateText).placeholders == Distinct(ScanBodies(templateText))
  {
  }
}
