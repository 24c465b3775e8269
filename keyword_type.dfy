/**
 * The closed enumeration of keyword types: `None`, ten default field names
 * and the two markers that delimit the recurring part of a template.
 */
module KeywordTypes {

  datatype KeywordType =
    | None
    | PostingKey
    | PostingDate
    | OrginalPostingAmount
    | OrginalCurrency
    | NameRecipient
    | Use
    | SortCodeRecipient
    | AccountRecipient
    | PostingText
    | BusinessTransactionCode
    | RecurringStart
    | RecurringEnd

  /** The members in declaration order, which is also the order of their values. */
  const Members: seq<KeywordType> := [
    None, PostingKey, PostingDate, OrginalPostingAmount, OrginalCurrency, NameRecipient, Use,
    SortCodeRecipient, AccountRecipient, PostingText, BusinessTransactionCode, RecurringStart,
    RecurringEnd
  ]

  /** The numeric value of each member. */
  function Value(k: KeywordType): nat {
    match k
    case None => 0
    case PostingKey => 1
    case PostingDate => 2
    case OrginalPostingAmount => 4
    case OrginalCurrency => 8
    case NameRecipient => 16
    case Use => 32
    case SortCodeRecipient => 64
    case AccountRecipient => 128
    case PostingText => 256
    case BusinessTransactionCode => 512
    case RecurringStart => 1024
    case RecurringEnd => 2048
  }

  /** `Enum.GetName`: the member's name as declared, spelling included. */
  function Name(k: KeywordType): (r: string)
    ensures r != []
  {
    match k
    case None => "None"
    case PostingKey => "PostingKey"
    case PostingDate => "PostingDate"
    case OrginalPostingAmount => "OrginalPostingAmount"
    case OrginalCurrency => "OrginalCurrency"
    case NameRecipient => "NameRecipient"
    case Use => "Use"
    case SortCodeRecipient => "SortCodeRecipient"
    case AccountRecipient => "AccountRecipient"
    case PostingText => "PostingText"
    case BusinessTransactionCode => "BusinessTransactionCode"
    case RecurringStart => "RecurringStart"
    case RecurringEnd => "RecurringEnd"
  }

  function Pow2(n: nat): nat {
    if n == 0 then 1 else 2 * Pow2(n - 1)
  }

  /** The table lists every member exactly once, `None` first and the two markers last. */
  lemma MembersAreTheEnumeration(k: KeywordType)
    ensures |Members| == 13 && k in Members
    ensures forall i, j :: 0 <= i < j < |Members| ==> Members[i] != Members[j]
    ensures Members[0] == None && Value(None) == 0
    ensures Members[11] == RecurringStart && Members[12] == RecurringEnd
  {
  }

  /** `None` is the first member and only the first. */
  lemma OnlyFirstIsNone(i: nat)
    requires i < |Members|
    ensures Members[i] == None <==> i == 0
  {
  }

  /** Every member after `None` is the next power of two, from 1 up to 2048. */
  lemma ValuesArePowersOfTwo()
    ensures forall i :: 1 <= i < |Members| ==> Value(Members[i]) == Pow2(i - 1)
  {
    assert Pow2(11) == 2048;
  }

  /** Distinct members have distinct names. */
  lemma NamesAreDistinct(k: KeywordType, l: KeywordType)
    requires k != l
    ensures Name(k) != Name(l)
  {
  }

  /** The names of the members after `None`, in declaration order. */
  function DefaultNames(): (r: seq<string>)
    ensures |r| == |Members| - 1
    ensures forall i :: 0 <= i < |r| ==> r[i] == Name(Members[i + 1])
  {
    seq(|Members| - 1, i requires 0 <= i < |Members| - 1 => Name(Members[i + 1]))
  }

  /** The default names exactly as spelled in the enumeration. */
  lemma DefaultNamesSpelling()
    ensures DefaultNames() == [
      "PostingKey", "PostingDate", "OrginalPostingAmount", "OrginalCurrency", "NameRecipient",
      "Use", "SortCodeRecipient", "AccountRecipient", "PostingText", "BusinessTransactionCode",
      "RecurringStart", "RecurringEnd"
    ]
  {
  }
}
