/** A keyword: a keyword type together with its name, and its token form. */
module Keywords {
  import opened KeywordTypes
  import TokenScan

  datatype Keyword = Keyword(keywordType: KeywordType, keywordValue: string)

  /** `Keyword.Create`: the keyword of a type, carrying that type and its declared name. */
  function Create(k: KeywordType): (kw: Keyword)
    ensures kw.keywordType == k
    ensures kw.keywordValue == Name(k) && kw.keywordValue != []
  {
    Keyword(k, Name(k))
  }

  /**
   * `Keyword.GetRegexPattern`: the token `{{Name}}` of a keyword type. The
   * template scan reads it back as exactly the keyword's name.
   */
  function GetRegexPattern(k: KeywordType): (r: string)
    ensures |r| == |Name(k)| + 4
    ensures TokenScan.ScanBodies(r) == [Name(k)]
  {
    NameHasNoBraces(k);
    TokenScan.ScanSimple([], Name(k));
    TokenScan.Token(Name(k))
  }

  /** No name holds a brace. */
  lemma NameHasNoBraces(k: KeywordType)
    ensures '{' !in Name(k) && '}' !in Name(k)
  {
    NameCharsBelowBraces(k);
  }

  /** Every character of a name is a letter, so it comes before both braces. */
  lemma NameCharsBelowBraces(k: KeywordType)
    ensures forall c :: c in Name(k) ==> c < '{'
  {
    if k.None? || k.PostingKey? || k.PostingDate? || k.Use? {
      ShortNamesBelowBraces(k);
    } else if k.OrginalPostingAmount? || k.OrginalCurrency? || k.NameRecipient? {
      OriginalNamesBelowBraces(k);
    } else if k.SortCodeRecipient? || k.AccountRecipient? || k.PostingText? {
      RecipientNamesBelowBraces(k);
    } else {
      RemainingNamesBelowBraces(k);
    }
  }

  lemma ShortNamesBelowBraces(k: KeywordType)
    requires k.None? || k.PostingKey? || k.PostingDate? || k.Use?
    ensures forall c :: c in Name(k) ==> c < '{'
  {
  }

  lemma OriginalNamesBelowBraces(k: KeywordType)
    requires k.OrginalPostingAmount? || k.OrginalCurrency? || k.NameRecipient?
    ensures forall c :: c in Name(k) ==> c < '{'
  {
  }

  lemma RecipientNamesBelowBraces(k: KeywordType)
    requires k.SortCodeRecipient? || k.AccountRecipient? || k.PostingText?
    ensures forall c :: c in Name(k) ==> c < '{'
  {
  }

  lemma RemainingNamesBelowBraces(k: KeywordType)
    requires k.BusinessTransactionCode? || k.RecurringStart? || k.RecurringEnd?
    ensures forall c :: c in Name(k) ==> c < '{'
  {
  }

  /** The token of `PostingKey`, as the keyword tests expect it. */
  lemma GetRegexPatternExample()
    ensures GetRegexPattern(PostingKey) == "{{PostingKey}}"
  {
    assert Name(PostingKey) == "PostingKey";
    PostingKeyToken();
  }

  lemma PostingKeyToken()
    ensures TokenScan.Token("PostingKey") == "{{PostingKey}}"
  {
    var t := TokenScan.Token("PostingKey");
    forall i | 0 <= i < 14 ensures t[i] == "{{PostingKey}}"[i] {
      if i < 2 {
        assert t[i] == TokenScan.Open[i];
      } else if i < 12 {
        assert t[i] == "PostingKey"[i - 2];
      } else {
        assert t[i] == TokenScan.Close[i - 12];
      }
    }
  }

  /** Distinct keyword types have distinct tokens. */
  lemma GetRegexPatternInjective(k: KeywordType, l: KeywordType)
    requires k != l
    ensures GetRegexPattern(k) != GetRegexPattern(l)
  {
    NamesAreDistinct(k, l);
    var a, b := GetRegexPattern(k), GetRegexPattern(l);
    assert Name(k) == a[2..|a| - 2];
    assert Name(l) == b[2..|b| - 2];
  }
}
