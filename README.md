# Custom_Text_Parser in Dafny

A model of the core of Custom_Text_Parser, a template-driven text extractor
for bank statements in the MT940 style. A template is text holding
placeholder tokens `{{Name}}` (or `{{Name:Length}}`). A first
`{{RecurringStart}}…{{RecurringEnd}}` pair marks a section that repeats in
the content. The parser turns the template into a regular expression, matches
the content against it and returns a dictionary from placeholder name to the
list of values found, in document order.

The model follows the program's own classes, one module each:

- `Placeholders` (`Placeholder.cs`): the `(name, length)` constructor; the
  `name:length` constructor, as written and with its guard corrected; `Equals`
  and the text `GetHashCode` hashes. `Int32Text` models the decimal
  `int.TryParse` the constructor relies on.
- `KeywordTypes` and `Keywords` (`KeywordType.cs`, `Keyword.cs`): the
  enumeration as an ordered constant table; `Create`, `KeywordValue` and
  `GetRegexPattern`.
- `TokenScan`: the non-greedy scan `{{(.*?)}}` (single-line mode) shared by
  both template classes, written as a scanner. It finds the leftmost `{{`,
  takes the body up to the nearest following `}}` and resumes after it.
- `TemplateTexts`: the CRLF→LF normalisation and the recurring region.
  The region is the text between the first `{{RecurringStart}}` and the
  nearest following `{{RecurringEnd}}`, or empty.
- `Templates` (`Template.cs`): the constructor as a method and as the function
  `Compile`; both `ExtractPlaceholders` overloads, the first with its loop over
  the enumeration; the outer/recurring partition.
- `Mt940Templates` (`MT940Template.cs`): the string-based revision of the
  template, as an immutable record built by `New`.
- `Patterns` (`Parser.cs`, `BuildRegexFromTemplate`): `Regex.Escape` over its
  documented escape set, the ordered chain of `Replace` calls and the loop
  over placeholders.
- `Parsing` (`Parser.cs`): `Parse`, `GetRecurringData` and `AddResult`.
  They are methods over a `ResultTable` object whose dictionary they update
  in place. Each is proved against the function `ParseSpec` and the table
  operations `Added`/`Apply`. The regular-expression engine is a parameter,
  `Matcher`. Given the input and the pattern, it returns the matches and
  possibly the exception the lazy enumeration raises after them. Each match
  holds its successful named groups and its `RecurringSection` captures.
- `ParserServices` (`ParserService.cs`): the constructor's null checks and
  the lookup and error mapping of `ParseContent`.
- `TextOps`, `Lists`, `Wrappers`: .NET `String.Replace`, `IndexOf`, `Split`
  and `Trim`, LINQ `Distinct`/`Except`, and `Option`/`Result`.

Null arguments are modelled with `Option`. Exceptions are modelled as the
failure side of a `Result`.

## Model

| member | source | states |
|---|---|---|
| `Placeholders.Create` | Custom_Text_Parser/Common/Placeholder.cs:11-15 | The name is stored unchanged and the length defaults to -1 |
| `Placeholders.CreateDefaultsLength` | Custom_Text_Parser/Common/Placeholder.cs:11 | A placeholder made from a name alone has length -1 |
| `Placeholders.Parse` | Custom_Text_Parser/Common/Placeholder.cs:17-39 | With the guard corrected: success exactly for one fragment, or for two whose second is an Int32. The wrong-count error comes exactly when the fragment count is not 1 or 2. The name is the first fragment and is never empty. The length is -1 for one fragment, otherwise the parsed integer |
| `Placeholders.AsWrittenNeverRefusesCount` | Custom_Text_Parser/Common/Placeholder.cs:20-21 | As written, the constructor never raises the "Unable to divide" exception, whatever the body |
| `Placeholders.AsWrittenEmptyBody` | Custom_Text_Parser/Common/Placeholder.cs:27-29 | As written, every body that splits into no fragment, `""` and `"::"` among them, fails with index out of range at `values[0]` |
| `Placeholders.AsWrittenIgnoresExtraFragments` | Custom_Text_Parser/Common/Placeholder.cs:27-33 | As written, `"a:1:b"` gives name `a` and length 1, and the third fragment is dropped silently |
| `Placeholders.ParseRefusesWrongCounts` | Custom_Text_Parser/Common/Placeholder.cs:20-21 | With the guard corrected, `""` and `"a:1:b"` are refused with the wrong-count error |
| `Placeholders.ParseAgreesWithAsWritten` | Custom_Text_Parser/Common/Placeholder.cs:22-38 | With one or two fragments, the corrected constructor and the one as written give the same result |
| `Placeholders.ParseIgnoresEmptyFragments` | Custom_Text_Parser/Common/Placeholder.cs:19 | A leading, trailing or doubled separator does not change the result |
| `Placeholders.LeadingSeparatorIgnored` | Custom_Text_Parser/Common/Placeholder.cs:19 | Splitting with empty entries removed ignores a leading separator |
| `Placeholders.TrailingSeparatorIgnored` | Custom_Text_Parser/Common/Placeholder.cs:19 | Splitting with empty entries removed ignores a trailing separator |
| `Placeholders.DoubledSeparatorIgnored` | Custom_Text_Parser/Common/Placeholder.cs:19 | Splitting with empty entries removed treats a doubled separator as a single one |
| `Placeholders.ParseRoundTrip` | Custom_Text_Parser/Common/Placeholder.cs:22-33 | A non-empty name without `:` reads back as (name, -1). `name:n` reads back as (name, n) for every Int32 n, negatives included |
| `Placeholders.InvalidLengthIsInvalidCast` | Custom_Text_Parser/Common/Placeholder.cs:27-37 | A name followed by a second fragment that does not parse as Int32 raises the invalid-cast error, as written and corrected alike |
| `Placeholders.EqualsIsValueEquality` | Custom_Text_Parser/Common/Placeholder.cs:41-54 | `Equals` holds exactly when name and length are both equal, never for null, and equal placeholders have the same hashed text |
| `Placeholders.HashKeyCollides` | Custom_Text_Parser/Common/Placeholder.cs:51-54 | The hashed text `Name + Length` does not separate ("a1", 2) from ("a", 12), which are not equal |
| `Int32Text.TryParseInt32` | Custom_Text_Parser/Common/Placeholder.cs:30 | A parsed length always lies in the Int32 range |
| `Int32Text.FormatParseRoundTrip` | Custom_Text_Parser/Common/Placeholder.cs:30-33 | The decimal text of every Int32, negatives included, parses back to it |
| `Int32Text.TryParseRejects` | Custom_Text_Parser/Common/Placeholder.cs:30 | `""`, `"1a"` and `"-"` do not parse as Int32 |
| `Int32Text.TryParseRejectsOverflow` | Custom_Text_Parser/Common/Placeholder.cs:34-37 | 2147483648 does not parse |
| `KeywordTypes.MembersAreTheEnumeration` | MT940_Parser/Enums/KeywordType.cs:8-23 | There are exactly 13 distinct members. `None` comes first with value 0, and `RecurringStart` and `RecurringEnd` are the last two |
| `KeywordTypes.OnlyFirstIsNone` | MT940_Parser/Enums/KeywordType.cs:10 | Only the first member is `None` |
| `KeywordTypes.ValuesArePowersOfTwo` | MT940_Parser/Enums/KeywordType.cs:11-22 | The member at position i ≥ 1 has the value 2^(i-1), from 1 up to 2048 |
| `KeywordTypes.NamesAreDistinct` | MT940_Parser/Enums/KeywordType.cs:8-23 | Distinct members have distinct names |
| `KeywordTypes.DefaultNames` | MT940_Parser/Enums/KeywordType.cs:11-22 | The names of the members after `None`, in declaration order |
| `KeywordTypes.DefaultNamesSpelling` | MT940_Parser/Enums/KeywordType.cs:11-22 | Those names are spelled exactly as declared, `OrginalPostingAmount` and `OrginalCurrency` included |
| `Keywords.Create` | Custom_Text_Parser/Common/Keyword.cs:13-22 | The keyword keeps its type, and its value is the member's name, which is never empty |
| `Keywords.GetRegexPattern` | Custom_Text_Parser/Common/Keyword.cs:23-26 | The pattern is four characters longer than the name, and scanning it for tokens yields exactly the name |
| `Keywords.GetRegexPatternExample` | Custom_Text_Parser_Tests/Keyword_Tests.cs:8-24 | The pattern of `PostingKey` is `{{PostingKey}}` |
| `Keywords.GetRegexPatternInjective` | Custom_Text_Parser/Common/Keyword.cs:25 | Distinct keyword types give distinct tokens |
| `Keywords.NameHasNoBraces` | Custom_Text_Parser/Common/Keyword.cs:25 | No member name contains a brace |
| `TemplateTexts.MarkersAreKeywordTokens` | Custom_Text_Parser/Common/Template.cs:76 | The region markers are the keyword patterns of `RecurringStart` and `RecurringEnd` |
| `TemplateTexts.NormalizeIsSplitJoin` | Custom_Text_Parser/Common/Template.cs:22 | Normalising splits the text at every CRLF and joins the pieces with LF, and the same pieces joined with CRLF give back the input |
| `TemplateTexts.NormalizeWithoutCr` | Custom_Text_Parser/Common/Template.cs:22 | A text without CR is left unchanged |
| `TemplateTexts.NormalizeIsSinglePass` | Custom_Text_Parser/Common/Template.cs:22 | The replacement is a single pass, so `"\r\r\n"` becomes `"\r\n"` |
| `TemplateTexts.RecurringRegionIsFirstDelimited` | Custom_Text_Parser/Common/Template.cs:74-79 | Either the region follows the leftmost start marker and runs up to the nearest end marker after it, or no marked region exists and the region is empty. The region never contains an end marker |
| `TemplateTexts.RecurringRegionOfSimple` | Custom_Text_Parser_Tests/Template_Tests.cs:30-43 | `p{{RecurringStart}}body{{RecurringEnd}}q` gives `body` when `p` and `body` hold no brace |
| `TemplateTexts.RecurringRegionOf` | Custom_Text_Parser/Common/Template.cs:74-79 | After text without a brace, a start marker and a body in which no end marker begins, the region is that body, whatever follows |
| `TemplateTexts.RecurringRegionWithoutStart` | Custom_Text_Parser/Common/Template.cs:78 | Without a start marker the region is empty |
| `TokenScan.ScannedBodiesAreTokens` | Custom_Text_Parser/Common/Template.cs:57 | Every scanned body b occurs in the text as the token `{{b}}` and contains no `}}` |
| `TokenScan.ScanSkipsPlain` | Custom_Text_Parser/Common/Template.cs:57 | Text without `{` in front of the rest adds no bodies |
| `TokenScan.ScanToken` | Custom_Text_Parser/Common/Template.cs:57 | A token at the front yields its body, and scanning resumes right after its `}}` |
| `TokenScan.ScanSimple` | Custom_Text_Parser/Common/Template.cs:57 | Plain text yields no body, and a single token yields its body |
| `TokenScan.ScanTwoTokens` | Custom_Text_Parser/Common/Template.cs:57 | Two tokens in plain text yield both bodies, in order |
| `TokenScan.TokenBodyCharsInText` | Custom_Text_Parser/Common/Template.cs:57 | A character missing from the text is missing from every token body in it |
| `Lists.DistinctFrom` | Custom_Text_Parser/Common/Template.cs:58 | `Distinct`/`Except` keep exactly the elements not excluded, once each, in order of first occurrence |
| `Templates.TokenBodies` | Custom_Text_Parser/Common/Template.cs:57-58 | The bodies are free of duplicates and are exactly the scanned bodies |
| `Templates.ParseEachMeaning` | Custom_Text_Parser/Common/Template.cs:60-61 | Parsing the bodies succeeds exactly when every body parses, giving their placeholders in order. A failure carries the error of the first body that fails |
| `Templates.ParseEachStopsAtFailure` | Custom_Text_Parser/Common/Template.cs:61 | Once a body fails, the bodies after it do not change the outcome |
| `Templates.ExtractPlaceholders` | Custom_Text_Parser/Common/Template.cs:54-63 | The loop over the distinct bodies returns what parsing them one by one under the given guard gives, including the first error. With `AsWritten` it is the code's loop as written |
| `Templates.DefaultPlaceholders` | Custom_Text_Parser/Common/Template.cs:39-43 | One placeholder without a length per default name, in enumeration order |
| `Templates.AddDefaults` | Custom_Text_Parser/Common/Template.cs:37-44 | The `foreach` over the enumeration that skips `None` builds exactly the default placeholders |
| `Templates.ExtractAllPlaceholders` | Custom_Text_Parser/Common/Template.cs:34-47 | The defaults when asked for, followed by the placeholders of the text under the given guard, or the error of the text's placeholders |
| `Templates.New` | Custom_Text_Parser/Common/Template.cs:19-27 | The constructor's fields in sequence under the given guard, or the error of a malformed body. With `AsWritten` it is the constructor as written |
| `Templates.TemplatePartition` | Custom_Text_Parser/Common/Template.cs:22-26 | The text is normalised and the region is taken from it. The outer placeholders are the placeholders not in the region, once each, in placeholder order |
| `Templates.DefaultsComeFirst` | Custom_Text_Parser/Common/Template.cs:37-46 | With defaults, construction succeeds exactly when it does without. The placeholders are then the 12 defaults (each with length -1, in enum order) followed by the scanned ones, with no deduplication |
| `Templates.CompileFailsExactly` | Custom_Text_Parser/Common/Template.cs:23-25 | Under either guard, as written or corrected, construction fails exactly when a body of the text or of its region fails to parse. A failing body of the text raises the error of the first such body |
| `Templates.CompileAgreesWithAsWritten` | Custom_Text_Parser/Common/Template.cs:56-61 | When every body of the text and of its region splits into one or two fragments, the constructor as written and the corrected one build the same template or raise the same error |
| `Templates.ThreeFragmentTemplate` | Custom_Text_Parser/Common/Template.cs:56-61 | As written, `{{a:1:b}}` builds a template whose one placeholder is (a, 1), outer. With the corrected guard it raises the wrong-count error |
| `Templates.EmptyFragmentTemplate` | Custom_Text_Parser/Common/Template.cs:56-61 | As written, `{{:}}` fails with index out of range. With the corrected guard it raises the wrong-count error |
| `Templates.PlaceholdersComeFromTokens` | Custom_Text_Parser/Common/Template.cs:57-61 | After the defaults, each placeholder is the parse of a distinct body found as a token in the text. Likewise each recurring placeholder comes from a token of the region |
| `Templates.NoRegionMeansAllOuter` | Custom_Text_Parser/Common/Template.cs:26 | With an empty region there are no recurring placeholders, and the outer ones are the placeholders without duplicates |
| `Templates.DefaultsAreDistinct` | Custom_Text_Parser/Common/Template.cs:39-43 | The default placeholders are pairwise distinct |
| `Templates.TemplateWithoutTokens` | Custom_Text_Parser_Tests/Template_Tests.cs:45-101 | A text without `{` gives just the defaults (or nothing), an empty region and all placeholders outer |
| `Templates.TwoTokenTemplate` | Custom_Text_Parser_Tests/Template_Tests.cs:10-27 | Two tokens in plain text give their two placeholders, in order |
| `Templates.RecurringEndStaysOuter` | Custom_Text_Parser/Common/Template.cs:24-26 | When the region holds no `:`, `RecurringEnd` is never a recurring placeholder. It is then an outer one whenever it is a placeholder, which it always is with defaults |
| `Templates.RecurringStartStaysOuter` | Custom_Text_Parser/Common/Template.cs:24-26 | When the region holds no `:` and no start marker, `RecurringStart` is never a recurring placeholder. It is then an outer one whenever it is a placeholder, which it always is with defaults |
| `Templates.NestedStartIsRecurring` | Custom_Text_Parser/Common/Template.cs:74-79 | With defaults, `{{RecurringStart}}{{RecurringStart}}{{RecurringEnd}}` has the inner start marker as its region, so `RecurringStart` is its one recurring placeholder and is not outer |
| `Templates.EndWithColonIsRecurring` | Custom_Text_Parser/Common/Template.cs:74-79 | With defaults, `{{RecurringStart}}{{RecurringEnd:}}{{RecurringEnd}}` has the token `{{RecurringEnd:}}` as its region. Its body parses to `RecurringEnd`, which is then recurring and not outer |
| `Templates.NoMarkerPlaceholder` | Custom_Text_Parser/Common/Template.cs:61 | A region without `:` and without the token of a name yields no placeholder of that name |
| `Templates.RecurringEndIsDefault` | Custom_Text_Parser/Common/Template.cs:39-43 | The last default placeholder is `RecurringEnd` |
| `Templates.RecurringStartIsDefault` | Custom_Text_Parser/Common/Template.cs:39-43 | The second-last default placeholder is `RecurringStart` |
| `Templates.BodyWithoutColon` | Custom_Text_Parser/Common/Template.cs:61 | A body without `:` parses to the placeholder of that name with length -1 |
| `Mt940Templates.ExtractPlaceholders` | MT940_Parser/Common/MT940Template.cs:41-46 | Null raises `ArgumentNullException`. Otherwise the result is exactly the raw scanned bodies, once each, in order of first occurrence |
| `Mt940Templates.Mt940Partition` | MT940_Parser/Common/MT940Template.cs:17-24 | The stored text is normalised and the placeholders come from the raw argument. The region comes from the normalised text whatever argument is passed. The outer placeholders are the placeholders not in the region, once each, in order |
| `Mt940Templates.RecurringEndStaysOuter` | MT940_Parser/Common/MT940Template.cs:23 | `RecurringEnd` is never a recurring placeholder, and is an outer one whenever it is a placeholder |
| `Mt940Templates.RecurringStartStaysOuter` | MT940_Parser/Common/MT940Template.cs:21-23 | When the region holds no start marker, `RecurringStart` is never a recurring placeholder, and is an outer one whenever it is a placeholder |
| `Mt940Templates.NestedStartIsRecurring` | MT940_Parser/Common/MT940Template.cs:57-61 | `{{RecurringStart}}{{RecurringStart}}{{RecurringEnd}}` has the inner start marker as its region, so `RecurringStart` is its one recurring placeholder and is not outer |
| `Mt940Templates.Mt940NoRegion` | MT940_Parser/Common/MT940Template.cs:61 | Without a marked region the region is empty, there are no recurring placeholders and the outer ones are all placeholders |
| `Mt940Templates.PlaceholdersKeepCrLf` | MT940_Parser/Common/MT940Template.cs:19-20 | A CRLF inside a token body stays in `Placeholders` (scanned from the raw text), while the stored text holds LF there |
| `Mt940Templates.NormalizeTokenBody` | MT940_Parser/Common/MT940Template.cs:19 | Normalising a token whose body holds one CRLF replaces it by LF |
| `Mt940Templates.TwoTokenTemplate` | MT940_Parser_Tests/Template_Tests.cs:12-29 | Two tokens in plain text give their two raw bodies, in order |
| `Patterns.EscapeCharShape` | Custom_Text_Parser/Parsing/Parser.cs:159 | Each character is kept, or becomes a backslash and a character that stands for it in a pattern. Exactly the metacharacters and the escaped white space are escaped |
| `Patterns.EscapeRoundTrip` | Custom_Text_Parser/Parsing/Parser.cs:159 | Reading the escaped text as a pattern literal gives back the original text |
| `Patterns.EscapeInjective` | Custom_Text_Parser/Parsing/Parser.cs:159 | Distinct texts escape to distinct patterns |
| `Patterns.EscapeConcat` | Custom_Text_Parser/Parsing/Parser.cs:159 | Escaping distributes over concatenation |
| `Patterns.EscapeWord` | Custom_Text_Parser/Parsing/Parser.cs:167 | ASCII letters, digits and `_` are not escaped |
| `Patterns.EscapeToken` | Custom_Text_Parser/Parsing/Parser.cs:167 | The escape of `{{n}}` for a word n is `\{\{n}}` |
| `Patterns.MarkerEscapes` | Custom_Text_Parser/Parsing/Parser.cs:161-162 | The escaped markers are `\{\{RecurringStart}}` and `\{\{RecurringEnd}}` |
| `Patterns.BuildRegexFromTemplate` | Custom_Text_Parser/Parsing/Parser.cs:155-190 | The loop over the placeholders, between the fixed replacements, yields the synthesised pattern |
| `Patterns.PatternShape` | Custom_Text_Parser/Parsing/Parser.cs:171-180 | The pattern begins with `^`, ends with `$` and contains no LF |
| `Patterns.TokenInLiteralText` | Custom_Text_Parser/Parsing/Parser.cs:159-180 | Between texts that escaping and the replacements leave alone, the token of a word name (ASCII letters, digits and `_`) becomes the lazy named group `(?<n>.+?)` when the name is listed, and stays the literal `{{n}}` otherwise. The texts around it are copied unchanged between `^` and `$` |
| `Patterns.SectionAroundToken` | Custom_Text_Parser/Parsing/Parser.cs:159-180 | For any list of word names, the marker names included, `a{{RecurringStart}}{{n}}{{RecurringEnd}}b` becomes `^a(?<RecurringSection>(?<n>.+?))+b$` when n is listed, and `^a(?<RecurringSection>{{n}})+b$` otherwise |
| `Patterns.SpacedTextStaysLiteral` | Custom_Text_Parser/Parsing/Parser.cs:159-180 | Text without tokens made of literal characters and spaces becomes the pattern itself between `^` and `$`: each space escaped to `\ ` is turned back by the chain |
| `Patterns.LiteralTextStaysLiteral` | Custom_Text_Parser/Parsing/Parser.cs:159-180 | Text without tokens that escaping and the replacements leave alone becomes the pattern itself between `^` and `$` |
| `Patterns.ReplaceOtherToken` | Custom_Text_Parser/Parsing/Parser.cs:168 | Replacing one placeholder's escaped token leaves another's at the front intact |
| `Patterns.FinishEscapedToken` | Custom_Text_Parser/Parsing/Parser.cs:171-178 | The unescape chain turns an escaped token back into the token |
| `Patterns.LineFeedTestExpectationDiffers` | Custom_Text_Parser_Tests/Parser_Tests.cs:66-82 | The pattern synthesised for the test's template is not the test's expected text, which keeps a raw LF |
| `Parsing.Added` | Custom_Text_Parser/Parsing/Parser.cs:119-125 | Adding a value gives the key a list when absent and appends the value. Other keys keep their lists |
| `Parsing.ResultTable.constructor` | Custom_Text_Parser/Parsing/Parser.cs:24 | The result dictionary starts empty |
| `Parsing.ResultTable.AddResult` | Custom_Text_Parser/Parsing/Parser.cs:119-125 | The dictionary in place becomes the old one with the value added under the key |
| `Parsing.ApplyKeys` | Custom_Text_Parser/Parsing/Parser.cs:119-125 | After a sequence of additions, a key is present exactly when it was before or some addition named it |
| `Parsing.ApplyValues` | Custom_Text_Parser/Parsing/Parser.cs:119-125 | After a sequence of additions, each key's list is its old list followed by the values added under it, in order |
| `Parsing.ApplyConcat` | Custom_Text_Parser/Parsing/Parser.cs:119-125 | Two sequences of additions in turn equal their concatenation |
| `Parsing.TableOfLog` | Custom_Text_Parser/Parsing/Parser.cs:24-57 | From an empty dictionary, the keys are exactly those some addition names, each with its values in order, and duplicates are kept |
| `Parsing.OneKeyTable` | Custom_Text_Parser/Parsing/Parser.cs:119-125 | Additions under one key give that key alone, with the cleaned values in order |
| `Parsing.EmittedValues` | Custom_Text_Parser/Parsing/Parser.cs:39-49 | With distinct names, one match adds exactly one cleaned value for each listed name whose group succeeded, and nothing else |
| `Parsing.EmittedNoGroups` | Custom_Text_Parser/Parsing/Parser.cs:41 | A match without successful groups adds nothing |
| `Parsing.AddGroupValues` | Custom_Text_Parser/Parsing/Parser.cs:39-49 | The loop over the placeholders adds the cleaned value of each successful group, in placeholder order |
| `Parsing.GetRecurringData` | Custom_Text_Parser/Parsing/Parser.cs:84-111 | Fails exactly when the recurring matching raises an `Argument*` exception, with a `ParsingException` for the capture and the recurring pattern. Otherwise it adds, match after match, the cleaned values of every placeholder whose group succeeded, and any other exception is swallowed |
| `Parsing.Parse` | Custom_Text_Parser/Parsing/Parser.cs:22-75 | The nested loops over the matches and their captures return what `ParseSpec` states |
| `Parsing.ContentHasNoLineFeed` | Custom_Text_Parser/Parsing/Parser.cs:31 | The normalised content contains no LF |
| `Parsing.RestoreLineBreaks` | Custom_Text_Parser/Parsing/Parser.cs:31-46 | For content without `{`, turning the line-break marker back gives the content with every CRLF as LF |
| `Parsing.CapturesStopAtFailure` | Custom_Text_Parser/Parsing/Parser.cs:51-54 | Once a recurring capture fails, the captures after it do not change the outcome |
| `Parsing.MatchesStopAtFailure` | Custom_Text_Parser/Parsing/Parser.cs:36-55 | Once a match fails, the matches after it do not change the outcome |
| `Parsing.CaptureFailureStops` | Custom_Text_Parser/Parsing/Parser.cs:51-64 | A failing capture of any match makes the whole parse fail |
| `Parsing.CapturesDataFails` | Custom_Text_Parser/Parsing/Parser.cs:105-108 | A match's captures fail exactly when the matching of one of them raises an `Argument*` exception |
| `Parsing.MatchesDataFails` | Custom_Text_Parser/Parsing/Parser.cs:36-55 | The matches fail exactly when some capture of some match raises an `Argument*` exception |
| `Parsing.ParseOutcome` | Custom_Text_Parser/Parsing/Parser.cs:57-68 | Success exactly when no recurring capture and not the outer matching raise. A `ParsingException` for the original content and the outer pattern exactly when either raises an `Argument*` exception. Any other outer exception is passed on. No match and no exception gives an empty dictionary |
| `Parsing.ParseTable` | Custom_Text_Parser/Parsing/Parser.cs:36-57 | A successful dictionary holds exactly the names some value was added under, each with its values in document order |
| `Parsing.SingleOuterMatch` | Custom_Text_Parser_Tests/Parser_Tests.cs:12-31 | One match without captures gives each distinct outer placeholder whose group succeeded, with its one cleaned value, and nothing else |
| `Parsing.RecurringLog` | Custom_Text_Parser/Parsing/Parser.cs:51-54 | Captures that each yield one value add those values under the one placeholder, capture after capture |
| `Parsing.RecurringValuesInOrder` | Custom_Text_Parser_Tests/Parser_Tests.cs:33-63 | Repetitions yield one list holding their cleaned values in capture order, or an empty dictionary when there are none |
| `ParserServices.New` | Custom_Text_Parser/Services/ParserService.cs:13-17 | A null parser is refused first, then a null dictionary, each with `ArgumentNullException` naming the parameter. Otherwise both are kept |
| `ParserServices.UnknownTemplate` | Custom_Text_Parser/Services/ParserService.cs:28-31 | An unknown name raises `ArgumentException`, whatever the parser does, since the parser is never called |
| `ParserServices.KnownTemplate` | Custom_Text_Parser/Services/ParserService.cs:33-40 | For a known name the parser's result is returned unchanged. Its failure is wrapped as `InvalidOperationException` with the original exception inside |
| `ParserServices.ServiceWrapsParsingError` | Custom_Text_Parser_Tests/ParserService_Tests.cs:48-67 | A parsing failure of the model's parser reaches the caller as `InvalidOperationException` around the `ParsingException` |
| `ParserServices.NotFoundIgnoresName` | Custom_Text_Parser/Services/ParserService.cs:30 | As written, two unknown names give the same exception for the same content |
| `ParserServices.NotFoundMessageExample` | Custom_Text_Parser_Tests/ParserService_Tests.cs:33-46 | As written, the test's call raises `ArgumentException` reporting `Template "content" not found.`, not the missing template's name |
| `ParserServices.NotFoundNamesTemplate` | Custom_Text_Parser/Services/ParserService.cs:30 | Corrected, distinct unknown names give distinct exceptions |
| `TextOps.ReplaceAllIsJoinOfSplit` | Custom_Text_Parser/Common/Template.cs:22 | `String.Replace` replaces the leftmost non-overlapping occurrences. It equals splitting at them and joining with the replacement |
| `TextOps.Trim` | Custom_Text_Parser/Parsing/Parser.cs:45 | The trimmed value is a slice of the input with only white space outside it, and it neither starts nor ends with white space |
| `TextOps.IndexOfIsLeftmost` | Custom_Text_Parser/Common/Template.cs:76-77 | The search for a marker finds an occurrence exactly when there is one, and the one it finds is the leftmost |
| `TextOps.JoinSplit` | Custom_Text_Parser/Common/Template.cs:22 | Splitting at a separator loses nothing: joining the pieces with it gives back the text |
| `TextOps.NonEmpty` | Custom_Text_Parser/Common/Placeholder.cs:19 | Removing empty entries keeps exactly the non-empty pieces |
| `TextOps.Fragments` | Custom_Text_Parser/Common/Placeholder.cs:19 | Splitting with empty entries removed yields no empty fragment |

## Left out

- The .NET regular-expression engine. `Regex.Matches` over the synthesised patterns, lazy `.+?` backtracking, and group and capture collections are the `Matcher` parameter. The model does not show that a pattern matches any content.
- `Regex.Escape` beyond its documented escape set (metacharacters, space, tab, LF, CR, form feed).
- `TextOps.Trim`: the white-space set is the white space among the first 256 code points. White space beyond them is not modelled.
- `Int32Text.TryParseInt32`: decimal digits with an optional sign and surrounding white space. Culture settings, other number styles and digits outside ASCII are not modelled.
- `Placeholders.EqualsIsValueEquality`: `GetHashCode` is modelled by the text it hashes (`Name + Length`), not by the hash value. String hashing is randomised per process in .NET.
- `GetKeywordType` (Parser.cs:201-228): dead private code.
- The catch-and-rethrow blocks, the message of `ParsingException`, and the message of the `ArgumentNullException` that `BuildRegexFromTemplate` rethrows. They are no-ops or formatting only. The failures are modelled as `ParsingError(content, pattern)` and `Unhandled`.
- Interfaces (`ITemplate`, `IParser`, `IKeyword`, both `IParserService`): signatures only, and they disagree across the two revisions. `Parser` works on the string-based `MT940Template` record.
- Null `templateText` for either template constructor, and null content or names in `Parse` and `ParseContent`. The model's strings are never null. The nullable arguments that the code checks explicitly (`ExtractPlaceholders`, the service constructor) are `Option`s.
- `Templates.New`, `Templates.ExtractPlaceholders`, `Templates.ExtractAllPlaceholders`: each takes the guard as a parameter and is the code as written with `AsWritten`. The template lemmas other than `Templates.CompileFailsExactly`, `Templates.CompileAgreesWithAsWritten`, `Templates.ThreeFragmentTemplate` and `Templates.EmptyFragmentTemplate` are stated for the corrected guard only. The two guards differ on a body of three or more fragments, such as `{{a:1:b}}`, and on a body of none, such as `{{:}}`. There the corrected guard raises the wrong-count error, while the code as written keeps (a, 1) or fails with index out of range. On every template whose bodies have one or two fragments the guards agree (`Templates.CompileAgreesWithAsWritten`).
- `Parsing.ParseSpec`: when `Parse` raises, the partly filled dictionary is discarded and not modelled, since the caller never sees it.
- `Parsing.GetRecurringData`: the model does not distinguish `ArgumentNullException` and `ArgumentOutOfRangeException` from `ArgumentException`. All three are the `ArgumentFamily` kind.
- The end-to-end mBank statement test, which asserts nothing.
- Performance and backtracking cost of the synthesised patterns.

## Findings

| source | as written | input that shows it | evidently intended | confidence | as-written member | corrected member |
|---|---|---|---|---|---|---|
| Custom_Text_Parser/Common/Placeholder.cs:20 | The guard `Length > 2 && Length < 1` can never hold | `"a:1:b"` gives name `a` and length 1, dropping the third fragment. `""` fails with index out of range instead of the "Unable to divide" exception | `Length > 2 \|\| Length < 1`, refusing every count other than 1 or 2 | high, not executed | `Placeholders.AsWrittenIgnoresExtraFragments` | `Placeholders.ParseRefusesWrongCounts` |
| Custom_Text_Parser/Services/ParserService.cs:30 | The not-found message interpolates `content` | `ParseContent("content", "example invalid name")` reports `Template "content" not found.` | The message names `templateName` | medium, not executed | `ParserServices.NotFoundIgnoresName` | `ParserServices.NotFoundNamesTemplate` |

`Placeholders.ParseAsWritten` and `ParserServices.ParseContentAsWritten` model the code as written. `Placeholders.Parse` and `ParserServices.ParseContent` are the corrected definitions. `Templates.Compile`, `Templates.New` and both methods that extract placeholders take the guard as a parameter: `AsWritten` is the code as written, and `Intended` is the corrected one. `Intended` is `Compile`'s default, which the rest of the model uses. The service lemmas use the corrected `ParseContent`.

## Where the code and its documentation differ

- `Parse`'s doc comment (Parser.cs:21) declares a `ParsingException`. Yet content that the outer pattern does not match yields an empty dictionary without one (Parser.cs:35-57), whenever the engine reports no match and no exception (`Parsing.ParseOutcome`). The model follows the code.
- The pattern test in `Parser_Tests.cs` at line 71 expects a raw LF in the synthesised pattern. The replacement chain of `BuildRegexFromTemplate` turns every LF into `{{NEWLINE}}` (`Patterns.PatternShape`, `Patterns.LineFeedTestExpectationDiffers`). The model follows the code.
- Outer placeholders are added once per outer match, so they hold at most one value only when the engine reports at most one match. The `^…$` anchors make that the usual case, but the model does not assume it.
- The markers delimit the recurring section and are not meant to be data, so the markers' own default placeholders are meant to stay outer. The region is read by a lazy match from the first start marker (Template.cs:74-79, MT940Template.cs:57-61), so a second `{{RecurringStart}}` before the end marker falls inside the region and makes `RecurringStart` a recurring placeholder (`Templates.NestedStartIsRecurring`, `Mt940Templates.NestedStartIsRecurring`). Likewise a `{{RecurringEnd:}}` token inside the region parses to the placeholder `RecurringEnd`, which then becomes recurring (`Templates.EndWithColonIsRecurring`). `Templates.RecurringStartStaysOuter`, `Templates.RecurringEndStaysOuter` and `Mt940Templates.RecurringStartStaysOuter` state the conditions under which the markers do stay outer. The model follows the code.
