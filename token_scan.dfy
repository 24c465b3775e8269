/**
 * The scan both template revisions run over template text: the regular
 * expression `{{(.*?)}}` with `RegexOptions.Singleline`, written out.
 */
module TokenScan {
  import opened Wrappers
  import opened TextOps

  const Open: string := "{{"
  const Close: string := "}}"

  /** The token form of a field name. */
  function Token(name: string): string {
    Open + name + Close
  }

  lemma ContainsInSuffix(s: string, n: nat, pat: string)
    requires n <= |s| && Contains(s[n..], pat)
    ensures Contains(s, pat)
  {
    var k :| 0 <= k <= |s[n..]| && OccursAt(s[n..], pat, k);
    OccursAtSuffix(s, pat, n, k);
  }

  /** The leftmost occurrence is the one `IndexOf` finds. */
  lemma IndexOfIs(s: string, pat: string, i: nat)
    requires OccursAt(s, pat, i)
    requires forall k: nat :: k < i ==> !OccursAt(s, pat, k)
    ensures IndexOf(s, pat) == Some(i)
  {
    IndexOfIsLeftmost(s, pat);
    assert Contains(s, pat);
  }

  /**
   * The next match of `{{(.*?)}}`: it starts at the leftmost `{{` and ends at
   * the nearest `}}` after it (the body may span lines). The result gives the
   * body's bounds; the match itself ends two characters after the body. When
   * the leftmost `{{` is never closed, no later one is either, so there is no
   * match at all.
   */
  function NextToken(s: string): (r: Option<(nat, nat)>)
    ensures r.Some? ==> 2 <= r.value.0 <= r.value.1 && r.value.1 + 2 <= |s|
  {
    match IndexOf(s, Open)
    case None => None
    case Some(i) =>
      match IndexOf(s[i + 2..], Close)
      case None => None
      case Some(j) => Some((i + 2, i + 2 + j))
  }

  /** The bodies of the successive matches of `{{(.*?)}}`, in match order. */
  function ScanBodies(s: string): seq<string>
    decreases |s|
  {
    match NextToken(s)
    case None => []
    case Some((a, b)) => [s[a..b]] + ScanBodies(s[b + 2..])
  }

  /**
   * Every scanned body comes from a token `{{body}}` of the text, and no body
   * contains `}}`: a match ends at the nearest closing braces.
   */
  lemma {:induction false} ScannedBodiesAreTokens(s: string)
    ensures forall b :: b in ScanBodies(s) ==> Contains(s, Token(b)) && !Contains(b, Close)
    decreases |s|
  {
    var next := NextToken(s);
    if next.None? {
      ScanEmpty(s);
    } else {
      var a := next.value.0;
      var b := next.value.1;
      ScannedBodiesAreTokens(s[b + 2..]);
      ScanUnfold(s, a, b);
      FirstTokenIsToken(s, a, b);
      FirstAndRestAreTokens(s, s[a..b], b + 2);
    }
  }

  /** The first body is a token of the text, and so is every token of the text after it. */
  lemma FirstAndRestAreTokens(s: string, body: string, n: nat)
    requires n <= |s|
    requires ScanBodies(s) == [body] + ScanBodies(s[n..])
    requires Contains(s, Token(body)) && !Contains(body, Close)
    requires AllTokensOf(s[n..], ScanBodies(s[n..]))
    ensures AllTokensOf(s, ScanBodies(s))
  {
    var rest := ScanBodies(s[n..]);
    TokensOfSuffix(s, n, rest);
    TokensCons(s, body, rest);
  }

  /** Every name of `xs` is a token of `s` whose name holds no `}}`. */
  predicate AllTokensOf(s: string, xs: seq<string>) {
    forall x :: x in xs ==> Contains(s, Token(x)) && !Contains(x, Close)
  }

  lemma TokensOfSuffix(s: string, n: nat, xs: seq<string>)
    requires n <= |s| && AllTokensOf(s[n..], xs)
    ensures AllTokensOf(s, xs)
  {
    forall x | x in xs ensures Contains(s, Token(x)) {
      ContainsInSuffix(s, n, Token(x));
    }
  }

  lemma TokensCons(s: string, body: string, xs: seq<string>)
    requires Contains(s, Token(body)) && !Contains(body, Close)
    requires AllTokensOf(s, xs)
    ensures AllTokensOf(s, [body] + xs)
  {
  }

  /** The first match is a token of the text whose body holds no `}}`. */
  lemma FirstTokenIsToken(s: string, a: nat, b: nat)
    requires NextToken(s) == Some((a, b))
    ensures Contains(s, Token(s[a..b])) && !Contains(s[a..b], Close)
  {
    FirstTokenBounds(s, a, b);
    TokenAt(s, a - 2, b);
    CloseFreeBeforeFirst(s[a..], b - a);
    assert s[a..][..b - a] == s[a..b];
  }

  /** Where the first match's braces are. */
  lemma FirstTokenBounds(s: string, a: nat, b: nat)
    requires NextToken(s) == Some((a, b))
    ensures 2 <= a <= b && b + 2 <= |s|
    ensures OccursAt(s, Open, a - 2) && OccursAt(s, Close, b)
    ensures IndexOf(s[a..], Close) == Some(b - a)
  {
    IndexOfIsLeftmost(s, Open);
    IndexOfIsLeftmost(s[a..], Close);
    OccursAtShift(s, Close, a, b - a);
  }

  /** Opening braces at `i` and closing braces at `b` enclose a token. */
  lemma TokenAt(s: string, i: nat, b: nat)
    requires i + 2 <= b && OccursAt(s, Open, i) && OccursAt(s, Close, b)
    ensures Contains(s, Token(s[i + 2..b]))
  {
    var body := s[i + 2..b];
    SliceSplit(s, i, i + 2, b + 2);
    SliceSplit(s, i + 2, b, b + 2);
    assert s[i..b + 2] == Open + (body + Close);
    assert OccursAt(s, Token(body), i);
  }

  lemma SliceSplit(s: string, i: nat, j: nat, k: nat)
    requires i <= j <= k <= |s|
    ensures s[i..k] == s[i..j] + s[j..k]
  {
  }

  /** The text before the first `}}` holds none. */
  lemma CloseFreeBeforeFirst(r: string, j: nat)
    requires IndexOf(r, Close) == Some(j)
    ensures !Contains(r[..j], Close)
  {
    IndexOfIsLeftmost(r, Close);
    forall k: nat | OccursAt(r[..j], Close, k) ensures false {
      OccursAtPrefix(r, Close, j, k);
    }
  }

  /** A leading text without `{` never starts a match. */
  lemma {:induction false} IndexOfAfterPlain(p: string, rest: string, pat: string)
    requires pat != [] && pat[0] !in p
    ensures IndexOf(p + rest, pat) ==
      (match IndexOf(rest, pat) case None => None case Some(i) => Some(|p| + i))
    decreases |p|
  {
    if p != [] {
      assert (p + rest)[1..] == p[1..] + rest;
      assert !(pat <= p + rest) by { assert (p + rest)[0] == p[0]; }
      IndexOfAfterPlain(p[1..], rest, pat);
    } else {
      assert p + rest == rest;
    }
  }

  /** Text without `{` contributes no token. */
  lemma NextTokenAfterPlain(p: string, rest: string)
    requires '{' !in p
    ensures NextToken(p + rest) ==
      (match NextToken(rest) case None => None case Some((a, b)) => Some((|p| + a, |p| + b)))
  {
    var s := p + rest;
    IndexOfAfterPlain(p, rest, Open);
    var oi := IndexOf(rest, Open);
    if oi.Some? {
      var i := oi.value;
      assert s[|p| + i + 2..] == rest[i + 2..];
    }
  }

  lemma ScanSkipsPlain(p: string, rest: string)
    requires '{' !in p
    ensures ScanBodies(p + rest) == ScanBodies(rest)
  {
    var next := NextToken(rest);
    if next.None? {
      SkipPlainNoToken(p, rest);
    } else {
      SkipPlainToken(p, rest, next.value.0, next.value.1);
    }
  }

  lemma SkipPlainNoToken(p: string, rest: string)
    requires '{' !in p && NextToken(rest).None?
    ensures ScanBodies(p + rest) == [] && ScanBodies(rest) == []
  {
    NextTokenAfterPlain(p, rest);
    ScanEmpty(rest);
    ScanEmpty(p + rest);
  }

  lemma SkipPlainToken(p: string, rest: string, a: nat, b: nat)
    requires '{' !in p && NextToken(rest) == Some((a, b))
    ensures ScanBodies(p + rest) == ScanBodies(rest)
  {
    NextTokenAfterPlain(p, rest);
    ScanShift(p, rest, a, b);
    ScanUnfold(rest, a, b);
  }

  /** A match found after a prefix reads the same body and leaves the same rest. */
  lemma ScanShift(p: string, rest: string, a: nat, b: nat)
    requires a <= b && b + 2 <= |rest|
    requires NextToken(p + rest) == Some((|p| + a, |p| + b))
    ensures ScanBodies(p + rest) == [rest[a..b]] + ScanBodies(rest[b + 2..])
  {
    SlicesAfterPrefix(p, rest, a, b);
    ScanUnfoldAt(p + rest, |p| + a, |p| + b, rest[a..b], rest[b + 2..]);
  }

  lemma ScanUnfoldAt(s: string, a: nat, b: nat, body: string, tail: string)
    requires NextToken(s) == Some((a, b))
    requires body == s[a..b] && tail == s[b + 2..]
    ensures ScanBodies(s) == [body] + ScanBodies(tail)
  {
    ScanUnfold(s, a, b);
  }

  lemma ScanEmpty(s: string)
    requires NextToken(s).None?
    ensures ScanBodies(s) == []
  {
  }

  lemma ScanUnfold(s: string, a: nat, b: nat)
    requires NextToken(s) == Some((a, b))
    ensures ScanBodies(s) == [s[a..b]] + ScanBodies(s[b + 2..])
  {
  }

  lemma SlicesAfterPrefix(p: string, rest: string, a: nat, b: nat)
    requires a <= b && b + 2 <= |rest|
    ensures (p + rest)[|p| + a..|p| + b] == rest[a..b]
    ensures (p + rest)[|p| + b + 2..] == rest[b + 2..]
  {
  }

  /** A token whose name has no `}` scans to exactly that name. */
  lemma ScanToken(n: string, rest: string)
    requires '}' !in n
    ensures ScanBodies(Token(n) + rest) == [n] + ScanBodies(rest)
  {
    var s := Token(n) + rest;
    assert OccursAt(s, Open, 0);
    assert NextToken(s) == Some((2, 2 + |n|)) by {
      IndexOfIs(s, Open, 0);
      var t := s[2..];
      assert t == n + Close + rest;
      assert OccursAt(t, Close, |n|);
      forall k: nat | k < |n| ensures !OccursAt(t, Close, k) {
        assert t[k] == n[k];
      }
      IndexOfIs(t, Close, |n|);
    }
    assert s[2..2 + |n|] == n;
    assert s[4 + |n|..] == rest;
  }

  /** Text without `{` has no tokens; a single token scans to its name. */
  lemma ScanSimple(p: string, n: string)
    requires '{' !in p && '}' !in n
    ensures ScanBodies(p) == []
    ensures ScanBodies(Token(n)) == [n]
  {
    ScanSkipsPlain(p, []);
    assert p + [] == p;
    ScanToken(n, []);
    assert Token(n) + [] == Token(n);
  }

  /** Two tokens, each after plain text, scan to their two names. */
  lemma ScanTwoTokens(p1: string, n1: string, p2: string, n2: string)
    requires '{' !in p1 && '{' !in p2 && '}' !in n1 && '}' !in n2
    ensures ScanBodies(p1 + Token(n1) + p2 + Token(n2)) == [n1, n2]
  {
    var tail := p2 + Token(n2);
    assert p1 + Token(n1) + p2 + Token(n2) == p1 + (Token(n1) + tail);
    ScanSkipsPlain(p1, Token(n1) + tail);
    ScanToken(n1, tail);
    ScanSkipsPlain(p2, Token(n2));
    ScanSimple([], n2);
  }

  /** Three adjacent tokens: their bodies, in order. */
  lemma ScanThreeTokens(n1: string, n2: string, n3: string)
    requires '}' !in n1 && '}' !in n2 && '}' !in n3
    ensures ScanBodies(Token(n1) + Token(n2) + Token(n3)) == [n1, n2, n3]
  {
    ScanSimple([], n3);
    ScanToken(n2, Token(n3));
    ScanToken(n1, Token(n2) + Token(n3));
    assert Token(n1) + Token(n2) + Token(n3) == Token(n1) + (Token(n2) + Token(n3));
  }

  /** A character missing from the text is missing from the body of each of its tokens. */
  lemma TokenBodyCharsInText(s: string, b: string, c: char)
    requires Contains(s, Token(b)) && c !in s
    ensures c !in b
  {
    var i :| 0 <= i <= |s| && OccursAt(s, Token(b), i);
    forall k | 0 <= k < |b| ensures b[k] != c {
      assert b[k] == Token(b)[2 + k] == s[i..i + |Token(b)|][2 + k] == s[i + 2 + k];
    }
  }
}
