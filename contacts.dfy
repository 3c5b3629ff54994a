/** Turning one spreadsheet row into the contact the program messages, or skipping it. */
module Contacts {
  import opened Wrappers
  import opened Text
  import opened Sheet
  import opened ColumnDetection

  /** A contact: `phone` is the digits-only number, `name` the text put into the caption. */
  datatype Contact = Contact(phone: string, name: string)

  /** `process_contacts_and_send_image`'s row handling: the phone is the digits of the stripped
      phone cell, the name the stripped name cell or the phone when that is empty, and a row
      whose phone has no digit is skipped. */
  function ContactOf(phoneCell: string, nameCell: string): (r: Option<Contact>)
    ensures r.Some? ==> r.value.phone != "" && AllDigits(r.value.phone) && r.value.name != ""
  {
    var phone := DigitsOnly(Strip(phoneCell));
    var stripped := Strip(nameCell);
    var name := if stripped == "" then phone else stripped;
    if phone == "" then None else Some(Contact(phone, name))
  }

  /** A row is skipped exactly when its phone cell has no digit; otherwise the contact's phone is
      those digits, in order, and its name is the stripped name cell, or the phone when that is blank. */
  lemma ContactOfMeaning(phoneCell: string, nameCell: string)
    ensures ContactOf(phoneCell, nameCell).Some? <==> DigitsOnly(phoneCell) != ""
    ensures ContactOf(phoneCell, nameCell).Some? ==>
              var c := ContactOf(phoneCell, nameCell).value;
              c.phone == DigitsOnly(phoneCell) && AllDigits(c.phone) && c.phone != "" && c.name != ""
              && (Strip(nameCell) != "" ==> c.name == Strip(nameCell))
              && (Strip(nameCell) == "" ==> c.name == c.phone)
  {
    DigitsOnlyStrip(phoneCell);
  }

  /** A cell of spaces strips to nothing. */
  lemma BlankStrips(nameCell: string)
    requires nameCell == "  "
    ensures Strip(nameCell) == ""
  {
    var rest := nameCell[1..];
    assert rest[1..] == "";
    assert Strip(rest) == Strip(rest[1..]) == "";
  }

  /** A space holds no digit. */
  lemma SpaceHasNoDigits()
    ensures DigitsOnly(" ") == ""
  {
    assert " "[1..] == "";
  }

  /** The worked example: the phone number between spaces, with a blank name cell, gives the
      digits as both the phone and the name. */
  lemma ContactOfExample(number: string)
    requires number == "+1 (555) 123-4567"
    ensures ContactOf(" " + number + " ", "  ") == Some(Contact("15551234567", "15551234567"))
  {
    DigitsOnlyExample(number);
    SpaceHasNoDigits();
    DigitsOnlyConcat(" " + number, " ");
    DigitsOnlyConcat(" ", number);
    assert DigitsOnly(" " + number + " ") == "15551234567";
    BlankStrips("  ");
    ContactOfMeaning(" " + number + " ", "  ");
  }

  /** The contact of row `r`, reading the detected phone and name columns. */
  function RowContact(t: Table, r: nat): Option<Contact>
    requires t.Valid() && |t.columns| > 0 && r < |t.rows|
  {
    var phoneCol := PhoneColumn(t);
    var row := t.rows[r];
    ContactOf(row[IndexOf(t.columns, phoneCol)], row[IndexOf(t.columns, NameColumn(t.columns, phoneCol))])
  }

  /** Every row has a cell at the phone and the name column positions. */
  predicate HasCells(rows: seq<seq<string>>, phoneAt: nat, nameAt: nat)
  {
    forall r :: 0 <= r < |rows| ==> phoneAt < |rows[r]| && nameAt < |rows[r]|
  }

  /** The contact of each row, reading its cells at `phoneAt` and `nameAt`. */
  function CellContacts(rows: seq<seq<string>>, phoneAt: nat, nameAt: nat): (cs: seq<Option<Contact>>)
    requires HasCells(rows, phoneAt, nameAt)
    ensures |cs| == |rows|
  {
    if |rows| == 0 then []
    else
      var last := rows[|rows| - 1];
      CellContacts(rows[..|rows| - 1], phoneAt, nameAt) + [ContactOf(last[phoneAt], last[nameAt])]
  }

  /** Row `r`'s entry is the contact read from that row's cells. */
  lemma {:induction false} CellContactsAt(rows: seq<seq<string>>, phoneAt: nat, nameAt: nat, r: nat)
    requires HasCells(rows, phoneAt, nameAt) && r < |rows|
    ensures CellContacts(rows, phoneAt, nameAt)[r] == ContactOf(rows[r][phoneAt], rows[r][nameAt])
  {
    if r < |rows| - 1 {
      var init := rows[..|rows| - 1];
      CellContactsAt(init, phoneAt, nameAt, r);
      assert init[r] == rows[r];
    }
  }
}
