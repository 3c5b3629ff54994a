/** Which column holds the phone numbers and which the names: keyword matching on the headers,
    then a vote on the cell contents, then a fixed fallback. */
module ColumnDetection {
  import opened Text
  import opened Search
  import opened Sheet

  const PhoneKeywords: seq<string> := ["phone", "mobile", "cell", "contact", "tel", "number", "whatsapp"]
  const NameKeywords: seq<string> := ["name", "contact", "person", "customer", "client", "user"]

  /** A sampled cell looks like a phone number when it has 7 to 15 digits. */
  const MinPhoneDigits: nat := 7
  const MaxPhoneDigits: nat := 15
  /** A column wins the content vote with at least 3 phone-like cells among its sample. */
  const MinPhoneVotes: nat := 3

  /** The lower-cased header contains one of the keywords. */
  predicate HasKeyword(col: string, keywords: seq<string>)
  {
    exists k :: 0 <= k < |keywords| && Contains(Lower(col), keywords[k])
  }

  predicate IsPhoneHeader(col: string) { HasKeyword(col, PhoneKeywords) }

  predicate IsNameHeader(col: string) { HasKeyword(col, NameKeywords) }

  predicate LooksLikePhone(cell: string)
  {
    MinPhoneDigits <= |DigitsOnly(cell)| <= MaxPhoneDigits
  }

  /** Number of phone-like cells. */
  function PhoneVotes(cells: seq<string>): (n: nat)
    ensures n <= |cells|
  {
    if |cells| == 0 then 0
    else PhoneVotes(cells[..|cells| - 1]) + (if LooksLikePhone(cells[|cells| - 1]) then 1 else 0)
  }

  predicate WinsVote(t: Table, j: nat)
    requires t.Valid() && j < |t.columns|
  {
    PhoneVotes(Sample(t, j)) >= MinPhoneVotes
  }

  function PhoneHeaderFlags(cols: seq<string>): seq<bool>
  {
    seq(|cols|, j requires 0 <= j < |cols| => IsPhoneHeader(cols[j]))
  }

  function VoteFlags(t: Table): seq<bool>
    requires t.Valid()
  {
    seq(|t.columns|, j requires 0 <= j < |t.columns| => WinsVote(t, j))
  }

  /** The phone column: the first header with a phone keyword; failing that, the first column
      that wins the content vote; failing that, the first column. */
  function PhoneColumn(t: Table): (c: string)
    requires t.Valid() && |t.columns| > 0
    ensures c in t.columns
  {
    var h := FirstTrue(PhoneHeaderFlags(t.columns), 0);
    if h < |t.columns| then t.columns[h]
    else
      var v := FirstTrue(VoteFlags(t), 0);
      if v < |t.columns| then t.columns[v] else t.columns[0]
  }

  /** A phone keyword in a header decides, whatever the cells hold: the earliest such column wins. */
  lemma PhoneHeaderWins(t: Table, i: nat)
    requires t.Valid() && i < |t.columns|
    requires IsPhoneHeader(t.columns[i])
    requires forall j :: 0 <= j < i ==> !IsPhoneHeader(t.columns[j])
    ensures PhoneColumn(t) == t.columns[i]
  {
    assert PhoneHeaderFlags(t.columns)[i];
  }

  /** With no phone keyword in any header, the earliest column that wins the vote is chosen. */
  lemma PhoneContentVote(t: Table, i: nat)
    requires t.Valid() && i < |t.columns|
    requires forall j :: 0 <= j < |t.columns| ==> !IsPhoneHeader(t.columns[j])
    requires WinsVote(t, i)
    requires forall j :: 0 <= j < i ==> !WinsVote(t, j)
    ensures PhoneColumn(t) == t.columns[i]
  {
    assert VoteFlags(t)[i];
  }

  /** With no keyword and no vote winner, the first column is chosen. */
  lemma PhoneFallback(t: Table)
    requires t.Valid() && |t.columns| > 0
    requires forall j :: 0 <= j < |t.columns| ==> !IsPhoneHeader(t.columns[j]) && !WinsVote(t, j)
    ensures PhoneColumn(t) == t.columns[0]
  {
  }

  /** The inner loop of the header pass: each keyword is tried on the lower-cased header in turn. */
  method MatchesPhoneKeyword(col: string) returns (found: bool)
    ensures found == IsPhoneHeader(col)
  {
    var lower := Lower(col);
    var k := 0;
    while k < |PhoneKeywords|
      invariant 0 <= k <= |PhoneKeywords|
      invariant forall m :: 0 <= m < k ==> !Contains(lower, PhoneKeywords[m])
    {
      if Contains(lower, PhoneKeywords[k]) {
        return true;
      }
      k := k + 1;
    }
    return false;
  }

  /** The inner loop of the content pass: count the sampled cells that look like phone numbers. */
  method CountPhoneLike(sample: seq<string>) returns (phoneCount: nat)
    ensures phoneCount == PhoneVotes(sample)
  {
    phoneCount := 0;
    var s := 0;
    while s < |sample|
      invariant 0 <= s <= |sample|
      invariant phoneCount == PhoneVotes(sample[..s])
    {
      var digits := DigitsOnly(sample[s]);
      if MinPhoneDigits <= |digits| <= MaxPhoneDigits {
        phoneCount := phoneCount + 1;
      }
      assert sample[..s + 1][..s] == sample[..s];
      s := s + 1;
    }
    assert sample[..s] == sample;
  }

  /** `auto_detect_phone_column`: the header pass tries every keyword on every lower-cased header in
      order, then the content pass counts the phone-like cells of each column's sample. */
  method DetectPhoneColumn(t: Table) returns (col: string)
    requires t.Valid() && |t.columns| > 0
    ensures col == PhoneColumn(t)
  {
    var cols := t.columns;
    var i := 0;
    while i < |cols|
      invariant 0 <= i <= |cols|
      invariant forall j :: 0 <= j < i ==> !IsPhoneHeader(cols[j])
    {
      var found := MatchesPhoneKeyword(cols[i]);
      if found {
        PhoneHeaderWins(t, i);
        return cols[i];
      }
      i := i + 1;
    }
    i := 0;
    while i < |cols|
      invariant 0 <= i <= |cols|
      invariant forall j :: 0 <= j < i ==> !WinsVote(t, j)
    {
      var phoneCount := CountPhoneLike(Sample(t, i));
      if phoneCount >= MinPhoneVotes {
        PhoneContentVote(t, i);
        return cols[i];
      }
      i := i + 1;
    }
    PhoneFallback(t);
    return cols[0];
  }

  function NameHeaderFlags(cols: seq<string>, phoneCol: string): seq<bool>
  {
    seq(|cols|, j requires 0 <= j < |cols| => cols[j] != phoneCol && IsNameHeader(cols[j]))
  }

  function OtherFlags(cols: seq<string>, phoneCol: string): seq<bool>
  {
    seq(|cols|, j requires 0 <= j < |cols| => cols[j] != phoneCol)
  }

  /** `auto_detect_name_column`: the first header other than the phone column with a name keyword;
      failing that, the first column other than the phone column; failing that, the first column. */
  function NameColumn(cols: seq<string>, phoneCol: string): (c: string)
    requires |cols| > 0
    ensures c in cols
  {
    var h := FirstTrue(NameHeaderFlags(cols, phoneCol), 0);
    if h < |cols| then cols[h]
    else
      var o := FirstTrue(OtherFlags(cols, phoneCol), 0);
      if o < |cols| then cols[o] else cols[0]
  }

  /** Whenever some other column exists, the name column is not the phone column. */
  lemma NameColumnAvoidsPhone(cols: seq<string>, phoneCol: string, i: nat)
    requires i < |cols| && cols[i] != phoneCol
    ensures NameColumn(cols, phoneCol) != phoneCol
  {
    assert OtherFlags(cols, phoneCol)[i];
  }

  /** The earliest non-phone column whose header has a name keyword wins. */
  lemma NameHeaderWins(cols: seq<string>, phoneCol: string, i: nat)
    requires i < |cols| && cols[i] != phoneCol && IsNameHeader(cols[i])
    requires forall j :: 0 <= j < i ==> cols[j] == phoneCol || !IsNameHeader(cols[j])
    ensures NameColumn(cols, phoneCol) == cols[i]
  {
    assert NameHeaderFlags(cols, phoneCol)[i];
  }

  /** With no name keyword outside the phone column, the earliest non-phone column is chosen. */
  lemma NameFallback(cols: seq<string>, phoneCol: string, i: nat)
    requires forall j :: 0 <= j < |cols| ==> cols[j] == phoneCol || !IsNameHeader(cols[j])
    requires i < |cols| && cols[i] != phoneCol
    requires forall j :: 0 <= j < i ==> cols[j] == phoneCol
    ensures NameColumn(cols, phoneCol) == cols[i]
  {
    assert OtherFlags(cols, phoneCol)[i];
  }

  /** When every column is the phone column (a one-column table), that column is used for names too. */
  lemma NameOnlyColumn(cols: seq<string>, phoneCol: string)
    requires |cols| > 0
    requires forall j :: 0 <= j < |cols| ==> cols[j] == phoneCol
    ensures NameColumn(cols, phoneCol) == phoneCol
  {
  }
}
