/**
 * What both template revisions do to their text before and besides the
 * token scan: line-ending normalisation and the recurring region between
 * `{{RecurringStart}}` and `{{RecurringEnd}}`.
 */
module TemplateTexts {
  import opened Wrappers
  import opened TextOps
  import TokenScan
  import KeywordTypes
  import Keywords

  /** The two structural markers, as `Keyword.GetRegexPattern` renders them. */
  const StartMarker: string := TokenScan.Token("RecurringStart")
  const EndMarker: string := TokenScan.Token("RecurringEnd")

  /** The markers are the tokens of the last two keyword types. */
  lemma MarkersAreKeywordTokens()
    ensures StartMarker == Keywords.GetRegexPattern(KeywordTypes.RecurringStart)
    ensures EndMarker == Keywords.GetRegexPattern(KeywordTypes.RecurringEnd)
  {
  }

  const CrLf: string := "\r\n"
  const Lf: string := "\n"

  /** `text.Replace("\r\n", "\n")`. */
  function NormalizeLineEndings(s: string): string {
    ReplaceAll(s, CrLf, Lf)
  }

  /**
   * Normalisation cuts the text at each CRLF, scanning left to right without
   * overlap, and joins the pieces with LF.
   */
  lemma NormalizeIsSplitJoin(s: string)
    ensures NormalizeLineEndings(s) == TextOps.JoinWith(SplitOn(s, CrLf), Lf)
    ensures s == TextOps.JoinWith(SplitOn(s, CrLf), CrLf)
  {
    ReplaceAllIsJoinOfSplit(s, CrLf, Lf);
    JoinSplit(s, CrLf);
  }

  /** Text without a carriage return is left as it is. */
  lemma NormalizeWithoutCr(s: string)
    requires '\r' !in s
    ensures NormalizeLineEndings(s) == s
  {
    forall i: nat | i + 2 <= |s| ensures !OccursAt(s, CrLf, i) {
      assert s[i..i + 2][0] == s[i];
    }
    ReplaceAllAbsent(s, CrLf, Lf);
  }

  /** A single pass: `"\r\r\n"` becomes `"\r\n"`, which is not normalised again. */
  lemma NormalizeIsSinglePass()
    ensures NormalizeLineEndings("\r\r\n") == "\r\n"
  {
    var s := "\r\r\n";
    assert s[1] == '\r' && s[1..] == CrLf;
    ReplaceAllAtFront([], CrLf, Lf);
    assert CrLf + [] == CrLf;
  }

  /**
   * The match of `{{RecurringStart}}(.*?){{RecurringEnd}}` (single-line mode)
   * and its group: the first start marker, the nearest end marker after it,
   * and the text between them. When the first start marker has no end marker
   * after it, no later one has either, so there is no match and the result
   * is empty.
   */
  function RecurringRegion(s: string): string {
    match IndexOf(s, StartMarker)
    case None => ""
    case Some(i) =>
      var rest := s[i + |StartMarker|..];
      match IndexOf(rest, EndMarker)
      case None => ""
      case Some(j) => rest[..j]
  }

  /**
   * `r` is the text that follows a start marker at `i` up to the nearest end
   * marker after it.
   */
  predicate DelimitedAt(s: string, i: nat, r: string) {
    DelimitedBy(s, StartMarker, EndMarker, i, r)
  }

  /** `r` follows `open` at `i` up to the nearest `close` after it. */
  predicate DelimitedBy(s: string, open: string, close: string, i: nat, r: string) {
    var b := i + |open|;
    && OccursAt(s, open, i)
    && b + |r| <= |s| && s[b..b + |r|] == r
    && OccursAt(s, close, b + |r|)
    && forall k :: b <= k < b + |r| ==> !OccursAt(s, close, k)
  }

  /**
   * The region is delimited by the leftmost start marker and the nearest end
   * marker after it, and holds no end marker; when the text has no start
   * marker followed by an end marker, the region is empty.
   */
  lemma RecurringRegionIsFirstDelimited(s: string)
    ensures var r := RecurringRegion(s);
      || (exists i: nat :: DelimitedAt(s, i, r) && forall k :: 0 <= k < i ==> !OccursAt(s, StartMarker, k))
      || (r == [] && forall i: nat, r' :: !DelimitedAt(s, i, r'))
    ensures !Contains(RecurringRegion(s), EndMarker)
  {
    IndexOfIsLeftmost(s, StartMarker);
    match IndexOf(s, StartMarker)
    case None =>
      NoRegionWithoutStart(s);
      EmptyHoldsNoEndMarker();
    case Some(i0) =>
      var rest := s[i0 + |StartMarker|..];
      match IndexOf(rest, EndMarker)
      case None =>
        NoRegionWithoutEnd(s, i0);
        EmptyHoldsNoEndMarker();
      case Some(j) =>
        RegionAtFirstStart(s, i0, j);
        assert RecurringRegion(s) == rest[..j];
  }

  lemma EmptyHoldsNoEndMarker()
    ensures !Contains("", EndMarker)
  {
    assert |EndMarker| > 0;
  }

  lemma NoRegionWithoutStart(s: string)
    requires IndexOf(s, StartMarker).None?
    ensures forall i: nat, r' :: !DelimitedAt(s, i, r')
  {
    IndexOfIsLeftmost(s, StartMarker);
    forall i: nat ensures !OccursAt(s, StartMarker, i) {
      if i <= |s| {
        assert !(0 <= i <= |s| && OccursAt(s, StartMarker, i));
      }
    }
  }

  lemma NoRegionWithoutEnd(s: string, i0: nat)
    requires IndexOf(s, StartMarker) == Some(i0)
    requires IndexOf(s[i0 + |StartMarker|..], EndMarker).None?
    ensures forall i: nat, r' :: !DelimitedAt(s, i, r')
  {
    NoDelimitedWithoutClose(s, StartMarker, EndMarker, i0);
  }

  /** When no `close` follows the leftmost `open`, no `open` is closed at all. */
  lemma NoDelimitedWithoutClose(s: string, open: string, close: string, i0: nat)
    requires IndexOf(s, open) == Some(i0)
    requires IndexOf(s[i0 + |open|..], close).None?
    ensures forall i: nat, r' :: !DelimitedBy(s, open, close, i, r')
  {
    IndexOfIsLeftmost(s, open);
    assert OccursAt(s, open, i0);
    forall i: nat, r' ensures !DelimitedBy(s, open, close, i, r') {
      if OccursAt(s, open, i) && i + |open| + |r'| <= |s| {
        NoOccurrenceAfter(s, close, i0 + |open|, i + |open| + |r'|);
      }
    }
  }

  /** Nothing found after `b` means no occurrence at any position from `b` on. */
  lemma NoOccurrenceAfter(s: string, pat: string, b: nat, m: nat)
    requires b <= m && b <= |s| && IndexOf(s[b..], pat).None?
    ensures !OccursAt(s, pat, m)
  {
    IndexOfIsLeftmost(s[b..], pat);
    OccursAtShift(s, pat, b, m - b);
    if m - b <= |s[b..]| {
      assert !OccursAt(s[b..], pat, m - b);
    }
  }

  lemma RegionAtFirstStart(s: string, i0: nat, j: nat)
    requires IndexOf(s, StartMarker) == Some(i0)
    requires IndexOf(s[i0 + |StartMarker|..], EndMarker) == Some(j)
    ensures var r := s[i0 + |StartMarker|..][..j];
      DelimitedAt(s, i0, r) && !Contains(r, EndMarker)
  {
    FirstDelimited(s, StartMarker, EndMarker, i0, j);
  }

  /**
   * The leftmost `open` and the nearest `close` after it delimit a text that
   * holds no `close`.
   */
  lemma FirstDelimited(s: string, open: string, close: string, i0: nat, j: nat)
    requires close != []
    requires IndexOf(s, open) == Some(i0)
    requires IndexOf(s[i0 + |open|..], close) == Some(j)
    ensures var r := s[i0 + |open|..][..j];
      DelimitedBy(s, open, close, i0, r) && !Contains(r, close)
  {
    FirstOccurrence(s, open, i0);
    var b := i0 + |open|;
    var rest := s[b..];
    ShiftedOccurrence(s, close, b, j);
    NoEarlierOccurrence(s, close, b, j);
    NoOccurrenceInPrefix(rest, close, j);
  }

  lemma FirstOccurrence(s: string, pat: string, i: nat)
    requires IndexOf(s, pat) == Some(i)
    ensures OccursAt(s, pat, i) && i + |pat| <= |s|
  {
    IndexOfIsLeftmost(s, pat);
  }

  /** The first `pat` found after `b` is an occurrence in `s`, at `b + j`. */
  lemma ShiftedOccurrence(s: string, pat: string, b: nat, j: nat)
    requires b <= |s| && IndexOf(s[b..], pat) == Some(j)
    ensures b + j + |pat| <= |s| && OccursAt(s, pat, b + j)
    ensures s[b..b + j] == s[b..][..j]
  {
    FirstOccurrence(s[b..], pat, j);
    OccursAtShift(s, pat, b, j);
  }

  /** The leftmost `pat` after `b` leaves none between `b` and itself. */
  lemma NoEarlierOccurrence(s: string, pat: string, b: nat, j: nat)
    requires b <= |s| && IndexOf(s[b..], pat) == Some(j)
    ensures forall k :: b <= k < b + j ==> !OccursAt(s, pat, k)
  {
    IndexOfIsLeftmost(s[b..], pat);
    forall k | b <= k < b + j ensures !OccursAt(s, pat, k) {
      OccursAtShift(s, pat, b, k - b);
    }
  }

  /** The text before the leftmost `pat` holds none. */
  lemma NoOccurrenceInPrefix(rest: string, pat: string, j: nat)
    requires pat != [] && IndexOf(rest, pat) == Some(j)
    ensures j <= |rest| && !Contains(rest[..j], pat)
  {
    IndexOfIsLeftmost(rest, pat);
    forall k: nat | OccursAt(rest[..j], pat, k) ensures false {
      OccursAtPrefix(rest, pat, j, k);
    }
  }

  /**
   * A start marker after plain text, a body without braces and an end
   * marker: the body is the region, whatever follows.
   */
  lemma RecurringRegionOfSimple(p: string, body: string, q: string)
    requires '{' !in p && '{' !in body
    ensures RecurringRegion(p + StartMarker + body + EndMarker + q) == body
  {
    var x := body + EndMarker + q;
    var s := p + StartMarker + body + EndMarker + q;
    MarkersOpenWithBrace();
    assert s == p + StartMarker + x;
    FoundAfterPlain(p, StartMarker, x);
    assert s[|p| + |StartMarker|..] == x;
    FoundAfterPlain(body, EndMarker, q);
    assert x[..|body|] == body;
  }

  /**
   * A start marker after text without a brace, then a body in which no end
   * marker begins: the body is the region, whatever follows.
   */
  lemma RecurringRegionOf(p: string, body: string, q: string)
    requires '{' !in p
    requires forall k: nat :: k < |body| ==> !OccursAt(body + EndMarker + q, EndMarker, k)
    ensures RecurringRegion(p + StartMarker + body + EndMarker + q) == body
  {
    var x := body + EndMarker + q;
    var s := p + StartMarker + body + EndMarker + q;
    MarkersOpenWithBrace();
    assert s == p + StartMarker + x;
    FoundAfterPlain(p, StartMarker, x);
    assert s[|p| + |StartMarker|..] == x;
    assert x[|body|..|body| + |EndMarker|] == EndMarker;
    TokenScan.IndexOfIs(x, EndMarker, |body|);
    assert x[..|body|] == body;
  }

  /** Where one character differs from the pattern's, the pattern does not occur there. */
  lemma MismatchAt(s: string, pat: string, k: nat, d: nat)
    requires d < |pat| && k + d < |s| && s[k + d] != pat[d]
    ensures !OccursAt(s, pat, k)
  {
    assert k + |pat| <= |s| ==> s[k..k + |pat|][d] == s[k + d];
  }

  /** No end marker begins inside a start marker that precedes one. */
  lemma NoEndInStart(q: string)
    ensures forall k: nat :: k < |StartMarker| ==> !OccursAt(StartMarker + EndMarker + q, EndMarker, k)
  {
    var x := StartMarker + EndMarker + q;
    assert x[..|StartMarker|] == "{{RecurringStart}}";
    assert EndMarker == "{{RecurringEnd}}";
    forall k: nat | k < |StartMarker| ensures !OccursAt(x, EndMarker, k) {
      assert x[k] == x[..|StartMarker|][k];
      if k == 0 {
        assert x[11] == x[..|StartMarker|][11];
        MismatchAt(x, EndMarker, 0, 11);
      } else if k == 1 {
        assert x[2] == x[..|StartMarker|][2];
        MismatchAt(x, EndMarker, 1, 1);
      } else {
        MismatchAt(x, EndMarker, k, 0);
      }
    }
  }

  /** No end marker begins inside the token `{{RecurringEnd:}}` when one follows it. */
  lemma NoEndInEndWithColon(q: string)
    ensures var body := TokenScan.Token("RecurringEnd:");
      forall k: nat :: k < |body| ==> !OccursAt(body + EndMarker + q, EndMarker, k)
  {
    var body := TokenScan.Token("RecurringEnd:");
    var x := body + EndMarker + q;
    assert x[..|body|] == "{{RecurringEnd:}}";
    assert EndMarker == "{{RecurringEnd}}";
    forall k: nat | k < |body| ensures !OccursAt(x, EndMarker, k) {
      assert x[k] == x[..|body|][k];
      if k == 0 {
        assert x[14] == x[..|body|][14];
        MismatchAt(x, EndMarker, 0, 14);
      } else if k == 1 {
        assert x[2] == x[..|body|][2];
        MismatchAt(x, EndMarker, 1, 1);
      } else {
        MismatchAt(x, EndMarker, k, 0);
      }
    }
  }

  /** The text of a start marker nested right after another: the inner one is the region. */
  lemma NestedStartText()
    ensures var text := StartMarker + StartMarker + EndMarker;
      NormalizeLineEndings(text) == text && RecurringRegion(text) == StartMarker
  {
    var text := StartMarker + StartMarker + EndMarker;
    MarkersHaveNoCr();
    NormalizeWithoutCr(text);
    NoEndInStart([]);
    RecurringRegionOf([], StartMarker, []);
    assert [] + StartMarker + StartMarker + EndMarker + [] == text;
  }

  lemma NestedStartBodies()
    ensures TokenScan.ScanBodies(StartMarker) == ["RecurringStart"]
    ensures TokenScan.ScanBodies(StartMarker + StartMarker + EndMarker) ==
      ["RecurringStart", "RecurringStart", "RecurringEnd"]
  {
    MarkerNamesHaveNoBrace();
    TokenScan.ScanSimple([], "RecurringStart");
    TokenScan.ScanThreeTokens("RecurringStart", "RecurringStart", "RecurringEnd");
  }

  lemma MarkerNamesHaveNoBrace()
    ensures '}' !in "RecurringStart" && '}' !in "RecurringEnd" && '}' !in "RecurringEnd:"
  {
  }

  /** The text of a `{{RecurringEnd:}}` token between the markers: that token is the region. */
  lemma EndWithColonText()
    ensures var text := StartMarker + TokenScan.Token("RecurringEnd:") + EndMarker;
      NormalizeLineEndings(text) == text && RecurringRegion(text) == TokenScan.Token("RecurringEnd:")
  {
    var body := TokenScan.Token("RecurringEnd:");
    var text := StartMarker + body + EndMarker;
    MarkersHaveNoCr();
    assert '\r' !in body;
    NormalizeWithoutCr(text);
    NoEndInEndWithColon([]);
    RecurringRegionOf([], body, []);
    assert [] + StartMarker + body + EndMarker + [] == text;
  }

  lemma EndWithColonBodies()
    ensures TokenScan.ScanBodies(TokenScan.Token("RecurringEnd:")) == ["RecurringEnd:"]
    ensures TokenScan.ScanBodies(StartMarker + TokenScan.Token("RecurringEnd:") + EndMarker) ==
      ["RecurringStart", "RecurringEnd:", "RecurringEnd"]
  {
    MarkerNamesHaveNoBrace();
    TokenScan.ScanSimple([], "RecurringEnd:");
    TokenScan.ScanThreeTokens("RecurringStart", "RecurringEnd:", "RecurringEnd");
  }

  lemma MarkersHaveNoCr()
    ensures '\r' !in StartMarker && '\r' !in EndMarker
  {
  }

  lemma MarkersOpenWithBrace()
    ensures StartMarker != [] && StartMarker[0] == '{'
    ensures EndMarker != [] && EndMarker[0] == '{'
  {
  }

  /** After text without the pattern's first character, the pattern is found where it starts. */
  lemma FoundAfterPlain(p: string, pat: string, rest: string)
    requires pat != [] && pat[0] !in p
    ensures IndexOf(p + pat + rest, pat) == Some(|p|)
  {
    assert p + pat + rest == p + (pat + rest);
    assert pat <= pat + rest;
    assert IndexOf(pat + rest, pat) == Some(0);
    TokenScan.IndexOfAfterPlain(p, pat + rest, pat);
  }

  /** Text without a start marker has an empty region. */
  lemma RecurringRegionWithoutStart(s: string)
    requires !Contains(s, StartMarker)
    ensures RecurringRegion(s) == []
  {
    IndexOfIsLeftmost(s, StartMarker);
    if IndexOf(s, StartMarker).Some? {
      assert Contains(s, StartMarker);
    }
  }
}
