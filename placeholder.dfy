/**
 * A field token of a template: the body of `{{name}}` or `{{name:length}}`
 * split into a name and an optional length hint.
 */
module Placeholders {
  import opened Wrappers
  import opened TextOps
  import opened Int32Text

  /** A named field; `length` is -1 when the token gives no length hint. */
  datatype Placeholder = Placeholder(name: string, length: int)

  const NoLength: int := -1

  /** The exceptions the token constructor raises. */
  datatype PlaceholderError =
    | UnableToDivide   // ArgumentException: wrong number of fragments
    | IndexOutOfRange  // reading the first fragment of an empty split
    | InvalidCast      // the length fragment is not a 32-bit integer

  /** `new Placeholder(name, length = -1)`: both values are stored as given. */
  function Create(name: string, length: int := NoLength): (p: Placeholder)
    ensures p.name == name && p.length == length
  {
    Placeholder(name, length)
  }

  /** A name given without a length gets the "no length" value -1. */
  lemma CreateDefaultsLength(name: string)
    ensures Create(name) == Placeholder(name, -1)
  {
  }

  /**
   * `new Placeholder(value, separator)` exactly as written: the guard meant to
   * reject a fragment count other than one or two can never hold, so zero
   * fragments fail on reading the first one and extra fragments are ignored.
   */
  function ParseAsWritten(value: string, separator: string): Result<Placeholder, PlaceholderError> {
    var values := Fragments(value, separator);
    if |values| > 2 && |values| < 1 then Failure(UnableToDivide)
    else if |values| == 1 then Success(Placeholder(values[0], NoLength))
    else if |values| == 0 then Failure(IndexOutOfRange)
    else match TryParseInt32(values[1])
      case Some(n) => Success(Placeholder(values[0], n))
      case None => Failure(InvalidCast)
  }

  /**
   * `new Placeholder(value, separator)` with the guard as evidently intended:
   * the body must split into one fragment (a name) or two (a name and a
   * 32-bit length); anything else is refused.
   */
  function Parse(value: string, separator: string): (r: Result<Placeholder, PlaceholderError>)
    ensures var values := Fragments(value, separator);
      && (r.Success? <==> |values| == 1 || (|values| == 2 && TryParseInt32(values[1]).Some?))
      && (r == Failure(UnableToDivide) <==> |values| != 1 && |values| != 2)
      && (r.Success? ==> r.value.name == values[0] && r.value.name != [])
      && (r.Success? && |values| == 1 ==> r.value.length == NoLength)
      && (r.Success? && |values| == 2 ==> Some(r.value.length) == TryParseInt32(values[1]))
      && (|values| == 2 && TryParseInt32(values[1]).None? ==> r == Failure(InvalidCast))
      && r != Failure(IndexOutOfRange)
  {
    var values := Fragments(value, separator);
    if |values| > 2 || |values| < 1 then Failure(UnableToDivide)
    else
      assert values[0] in values;
      if |values| == 1 then Success(Placeholder(values[0], NoLength))
      else match TryParseInt32(values[1])
      case Some(n) => Success(Placeholder(values[0], n))
      case None => Failure(InvalidCast)
  }

  /** The written guard never fires: the "unable to divide" error is unreachable. */
  lemma AsWrittenNeverRefusesCount(value: string, separator: string)
    ensures ParseAsWritten(value, separator) != Failure(UnableToDivide)
  {
  }

  /**
   * As written, a body that splits into no fragment at all, such as `""` or
   * `"::"`, fails on an out-of-range index when the first fragment is read.
   */
  lemma AsWrittenEmptyBody(value: string, separator: string)
    ensures Fragments(value, separator) == [] ==> ParseAsWritten(value, separator) == Failure(IndexOutOfRange)
    ensures Fragments("", ":") == [] && Fragments("::", ":") == []
  {
    assert SplitOn("", ":") == [""];
    assert SplitOn(":", ":") == [""] + SplitOn("", ":");
    assert SplitOn("::", ":") == [""] + SplitOn(":", ":");
  }

  /** As written, fragments after the second are silently dropped. */
  lemma AsWrittenIgnoresExtraFragments()
    ensures ParseAsWritten("a:1:b", ":") == Success(Placeholder("a", 1))
  {
    ThreeFragments();
    assert TryParseInt32("1") == Some(1);
  }

  lemma ThreeFragments()
    ensures Fragments("a:1:b", ":") == ["a", "1", "b"]
  {
    SplitOnNoSeparator("a", ':');
    SplitOnNoSeparator("1", ':');
    SplitOnNoSeparator("b", ':');
    SplitOnCharConcat("1", ':', "b");
    SplitOnCharConcat("a", ':', "1:b");
    assert "a:1:b" == "a" + [':'] + "1:b";
    assert "1:b" == "1" + [':'] + "b";
    assert SplitOn("a:1:b", ":") == ["a", "1", "b"];
  }

  /** With the intended guard, the same bodies are refused. */
  lemma ParseRefusesWrongCounts()
    ensures Parse("", ":") == Failure(UnableToDivide)
    ensures Parse("a:1:b", ":") == Failure(UnableToDivide)
  {
    NoFragmentsOfEmpty();
    ThreeFragments();
  }

  /** Where the fragment count is one or two, the intended guard changes nothing. */
  lemma ParseAgreesWithAsWritten(value: string, separator: string)
    requires |Fragments(value, separator)| in {1, 2}
    ensures Parse(value, separator) == ParseAsWritten(value, separator)
  {
  }

  lemma {:induction false} SplitOnNoSeparator(s: string, c: char)
    requires c !in s
    ensures SplitOn(s, [c]) == [s]
    decreases |s|
  {
    if s != [] {
      SplitOnNoSeparator(s[1..], c);
      assert s[0] != c;
      assert s == [s[0]] + s[1..];
    }
  }

  /** Empty fragments never count: separators at either end or doubled are ignored. */
  lemma ParseIgnoresEmptyFragments(a: string, b: string)
    ensures Parse(":" + a, ":") == Parse(a, ":")
    ensures Parse(a + ":", ":") == Parse(a, ":")
    ensures Parse(a + "::" + b, ":") == Parse(a + ":" + b, ":")
  {
    LeadingSeparatorIgnored(a);
    TrailingSeparatorIgnored(a);
    DoubledSeparatorIgnored(a, b);
  }

  lemma NoFragmentsOfEmpty()
    ensures NonEmpty(SplitOn([], ":")) == []
  {
    assert SplitOn([], ":") == [""];
  }

  lemma LeadingSeparatorIgnored(a: string)
    ensures Fragments(":" + a, ":") == Fragments(a, ":")
  {
    SplitOnCharConcat([], ':', a);
    assert [] + [':'] + a == ":" + a;
    NonEmptyConcat(SplitOn([], ":"), SplitOn(a, ":"));
    NoFragmentsOfEmpty();
  }

  lemma TrailingSeparatorIgnored(a: string)
    ensures Fragments(a + ":", ":") == Fragments(a, ":")
  {
    SplitOnCharConcat(a, ':', []);
    assert a + [':'] + [] == a + ":";
    NonEmptyConcat(SplitOn(a, ":"), SplitOn([], ":"));
    NoFragmentsOfEmpty();
  }

  lemma DoubledSeparatorIgnored(a: string, b: string)
    ensures Fragments(a + "::" + b, ":") == Fragments(a + ":" + b, ":")
  {
    SplitOnCharConcat(a, ':', ":" + b);
    assert a + [':'] + (":" + b) == a + "::" + b;
    SplitOnCharConcat(a, ':', b);
    assert a + [':'] + b == a + ":" + b;
    LeadingSeparatorIgnored(b);
    NonEmptyConcat(SplitOn(a, ":"), SplitOn(":" + b, ":"));
    NonEmptyConcat(SplitOn(a, ":"), SplitOn(b, ":"));
  }

  lemma IntToStringHasNoColon(n: int)
    ensures ':' !in IntToString(n) && IntToString(n) != []
  {
    var d := NatToString(if n < 0 then -n else n);
    assert forall i :: 0 <= i < |d| ==> IsDigit(d[i]);
  }

  /**
   * The token forms round-trip: `name` reads back as a placeholder without a
   * length, and `name:length` as one with that length, for every 32-bit length.
   */
  lemma ParseRoundTrip(name: string, n: int)
    requires name != [] && ':' !in name
    requires InInt32(n)
    ensures Parse(name, ":") == Success(Placeholder(name, NoLength))
    ensures Parse(name + ":" + IntToString(n), ":") == Success(Placeholder(name, n))
  {
    assert ":" == [':'];
    SplitOnNoSeparator(name, ':');
    assert Fragments(name, ":") == NonEmpty([name]) == [name];
    var t := IntToString(n);
    IntToStringHasNoColon(n);
    SplitOnNoSeparator(t, ':');
    SplitOnCharConcat(name, ':', t);
    assert name + [':'] + t == name + ":" + t;
    assert SplitOn(name + ":" + t, ":") == [name, t];
    assert NonEmpty([name, t]) == [name] + NonEmpty([t]);
    assert Fragments(name + ":" + t, ":") == [name, t];
    FormatParseRoundTrip(n);
  }

  /**
   * A length fragment that is not a 32-bit integer raises the invalid-cast
   * error, in the constructor as written and corrected alike.
   */
  lemma InvalidLengthIsInvalidCast(name: string, t: string)
    requires name != [] && t != [] && ':' !in name && ':' !in t
    requires TryParseInt32(t).None?
    ensures Parse(name + ":" + t, ":") == Failure(InvalidCast)
    ensures ParseAsWritten(name + ":" + t, ":") == Failure(InvalidCast)
  {
    assert ":" == [':'];
    SplitOnNoSeparator(name, ':');
    SplitOnNoSeparator(t, ':');
    SplitOnCharConcat(name, ':', t);
    assert name + [':'] + t == name + ":" + t;
    assert SplitOn(name + ":" + t, ":") == [name, t];
    assert NonEmpty([name, t]) == [name] + NonEmpty([t]);
    assert Fragments(name + ":" + t, ":") == [name, t];
  }

  /** `Equals(object)`: the other object must be a placeholder (not null) with the same name and length. */
  function Equals(p: Placeholder, obj: Option<Placeholder>): bool {
    obj.Some? && p.name == obj.value.name && p.length == obj.value.length
  }

  /** The string whose hash `GetHashCode` returns: the name followed by the length's text. */
  function HashKey(p: Placeholder): string {
    p.name + IntToString(p.length)
  }

  /** Equality is equality of (name, length), never holds for null, and equal placeholders hash alike. */
  lemma EqualsIsValueEquality(p: Placeholder, q: Placeholder)
    ensures Equals(p, Some(q)) <==> p == q
    ensures !Equals(p, None)
    ensures Equals(p, Some(q)) ==> HashKey(p) == HashKey(q)
  {
  }

  /** The hash key is not injective: distinct placeholders can share it. */
  lemma HashKeyCollides()
    ensures Placeholder("a1", 2) != Placeholder("a", 12)
    ensures HashKey(Placeholder("a1", 2)) == HashKey(Placeholder("a", 12))
  {
    assert IntToString(2) == "2";
    assert IntToString(12) == NatToString(1) + [DigitChar(2)] == "12";
  }
}
