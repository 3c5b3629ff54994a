/** The text of the feedback log: its header, one entry per contact, and the closing summary.
    The log is a sequence of entries, one per write; the file holds each followed by a newline. */
module Feedback {
  import opened Wrappers
  import opened Text
  import opened Numerals

  /** Width of the dashed rules, and of the line the signature is right-aligned in. */
  const RuleWidth: nat := 50
  const Signature: string := "Rashed--SE@UTM"

  /** Python's `c * n` for a one-character string. */
  function Repeat(c: char, n: nat): (s: string)
    ensures |s| == n && forall i :: 0 <= i < n ==> s[i] == c
  {
    seq(n, _ => c)
  }

  function Rule(): string { Repeat('-', RuleWidth) }

  /** The signature after `" " * (50 - len(signature))` spaces. */
  function SignatureLine(): string
  {
    Repeat(' ', RuleWidth - |Signature|) + Signature
  }

  /** The signature sits flush right in a line as wide as the rules. */
  lemma SignatureRightAligned()
    ensures |SignatureLine()| == RuleWidth
    ensures SignatureLine()[RuleWidth - |Signature|..] == Signature
    ensures forall i :: 0 <= i < RuleWidth - |Signature| ==> SignatureLine()[i] == ' '
  {
  }

  /** What the log holds after it is truncated at the start of a run: the start banner ending in
      the timestamp, a rule of dashes as wide as the signature line, and a blank line. */
  function HeaderLines(started: string): (r: seq<string>)
    ensures |r| == 3 && r[2] == ""
    ensures "WhatsApp Automation Started at " <= r[0] && |started| <= |r[0]| && r[0][|r[0]| - |started|..] == started
    ensures |r[1]| == RuleWidth && forall i :: 0 <= i < RuleWidth ==> r[1][i] == '-'
  {
    ["WhatsApp Automation Started at " + started, Rule(), ""]
  }

  /** `log_feedback`: `[index/total] name -- phone : status`. The line opens with the bracket
      and ends with the status; `FeedbackLineReadBack` reads the rest back. */
  function FeedbackLine(index: nat, total: nat, name: string, phone: string, status: string): (r: string)
    ensures |r| > |status| && r[0] == '['
  {
    "[" + (NatToString(index) + ("/" + (NatToString(total) + ("] " + (name + " -- " + phone + " : " + status)))))
  }

  /** Reads the `[index/total] ` that opens a feedback line: the two numbers and the text after it. */
  function ReadLineHeader(line: string): Option<(nat, nat, string)>
  {
    if |line| == 0 || line[0] != '[' then None else ReadIndex(line[1..])
  }

  /** Reads `index/` and hands the rest to `ReadTotal`. */
  function ReadIndex(a: string): Option<(nat, nat, string)>
  {
    var n := LeadingDigits(a);
    LeadingDigitsDigits(a);
    if n == 0 || n == |a| || a[n] != '/' then None else ReadTotal(ParseNat(a[..n]), a[n + 1..])
  }

  /** Reads `total] ` and returns the numbers with the text after it. */
  function ReadTotal(index: nat, b: string): Option<(nat, nat, string)>
  {
    var m := LeadingDigits(b);
    LeadingDigitsDigits(b);
    if m == 0 || m + 1 >= |b| || b[m] != ']' || b[m + 1] != ' ' then None
    else Some((index, ParseNat(b[..m]), b[m + 2..]))
  }

  /** The total and the text after `] ` are read back from `t + "] " + body`. */
  lemma ReadTotalOf(index: nat, t: string, body: string)
    requires |t| > 0 && AllDigits(t)
    ensures ReadTotal(index, t + ("] " + body)) == Some((index, ParseNat(t), body))
  {
    var b := t + ("] " + body);
    assert b[..|t|] == t;
    assert b[|t| + 2..] == body;
    LeadingDigitsAt(b, |t|);
  }

  /** The index is read back from `i + "/" + rest` and `rest` is handed on. */
  lemma ReadIndexOf(i: string, rest: string)
    requires |i| > 0 && AllDigits(i)
    ensures ReadIndex(i + ("/" + rest)) == ReadTotal(ParseNat(i), rest)
  {
    var a := i + ("/" + rest);
    assert a[..|i|] == i;
    assert a[|i| + 1..] == rest;
    LeadingDigitsAt(a, |i|);
  }

  /** A feedback line gives back the row's position, the contact count and the text after them. */
  lemma FeedbackLineReadBack(index: nat, total: nat, name: string, phone: string, status: string)
    ensures ReadLineHeader(FeedbackLine(index, total, name, phone, status))
         == Some((index, total, name + " -- " + phone + " : " + status))
  {
    var i, t, body := NatToString(index), NatToString(total), name + " -- " + phone + " : " + status;
    ReadIndexOf(i, t + ("] " + body));
    ReadTotalOf(ParseNat(i), t, body);
    ParseNatToString(index);
    ParseNatToString(total);
  }

  /** How the run ended, as the summary's third line says it. */
  function Banner(finished: string, forced: bool): string
  {
    (if forced then "Automation forcefully stopped at " else "Automation successfully finished at ") + finished
  }

  /** The summary's blank line, rule and banner. */
  function SummaryOpening(finished: string, forced: bool): seq<string>
  {
    ["", Rule(), Banner(finished, forced)]
  }

  /** The remaining-contacts line, present only when the run was stopped. */
  function Remaining(total: int, sent: int, failed: int, forced: bool): seq<string>
  {
    if forced then ["Remaining contacts: " + IntToString(total - (sent + failed))] else []
  }

  /** The summary's closing rule and the signature between blank lines. */
  function SummaryClosing(): seq<string>
  {
    [Rule(), "", SignatureLine(), ""]
  }

  /** `log_summary`: a blank line and a rule, how the run ended, the three counts, the remaining
      count when the run was stopped, a rule, and the signature between blank lines. */
  function SummaryLines(finished: string, total: int, sent: int, failed: int, forced: bool): (r: seq<string>)
    ensures |r| == if forced then 11 else 10
    ensures r[2] == Banner(finished, forced) && r[|r| - 2] == SignatureLine() && r[|r| - 1] == ""
  {
    SummaryOpening(finished, forced)
    + (["Total contacts: " + IntToString(total)]
    + (["Successfully sent: " + IntToString(sent)]
    + (["Failed: " + IntToString(failed)]
    + (Remaining(total, sent, failed, forced) + SummaryClosing()))))
  }

  /** The integer after `tag` on the first line that starts with `tag`, if it is integer text. */
  function ReadCount(lines: seq<string>, tag: string): Option<int>
  {
    if |lines| == 0 then None
    else if tag <= lines[0] then
      var rest := lines[0][|tag|..];
      if IsIntText(rest) then Some(ParseInt(rest)) else None
    else ReadCount(lines[1..], tag)
  }

  /** A line whose first character differs from the tag's is passed over. */
  lemma ReadCountPast(line: string, rest: seq<string>, tag: string)
    requires |tag| > 0 && (|line| == 0 || line[0] != tag[0])
    ensures ReadCount([line] + rest, tag) == ReadCount(rest, tag)
  {
    assert !(tag <= line);
    assert ([line] + rest)[1..] == rest;
  }

  /** A labelled count line is read back as its count. */
  lemma ReadCountFinds(value: int, rest: seq<string>, tag: string)
    ensures ReadCount([tag + IntToString(value)] + rest, tag) == Some(value)
  {
    IntToStringRoundTrip(value);
    assert (tag + IntToString(value))[|tag|..] == IntToString(value);
  }

  /** The opening lines carry none of the count tags. */
  lemma OpeningPast(finished: string, forced: bool, rest: seq<string>, tag: string)
    requires |tag| > 0 && tag[0] != '-' && tag[0] != 'A'
    ensures ReadCount(SummaryOpening(finished, forced) + rest, tag) == ReadCount(rest, tag)
  {
    var banner := Banner(finished, forced);
    assert banner[0] == 'A';
    assert Rule()[0] == '-';
    assert SummaryOpening(finished, forced) + rest == [""] + ([Rule()] + ([banner] + rest));
    ReadCountPast("", [Rule()] + ([banner] + rest), tag);
    ReadCountPast(Rule(), [banner] + rest, tag);
    ReadCountPast(banner, rest, tag);
  }

  /** The closing lines carry none of the count tags. */
  lemma ClosingPast(tag: string)
    requires |tag| > 0 && tag[0] != '-' && tag[0] != ' '
    ensures ReadCount(SummaryClosing(), tag) == None
  {
    var sig := SignatureLine();
    assert sig[0] == ' ';
    assert Rule()[0] == '-';
    var c := SummaryClosing();
    assert c == [Rule()] + ([""] + ([sig] + ([""] + [])));
    ReadCountPast(Rule(), [""] + ([sig] + ([""] + [])), tag);
    ReadCountPast("", [sig] + ([""] + []), tag);
    ReadCountPast(sig, [""] + [], tag);
    ReadCountPast("", [], tag);
  }

  /** The summary's total reads back as the total. */
  lemma SummaryTotal(finished: string, total: int, sent: int, failed: int, forced: bool)
    ensures ReadCount(SummaryLines(finished, total, sent, failed, forced), "Total contacts: ") == Some(total)
  {
    var tag := "Total contacts: ";
    assert tag[0] == 'T';
    var rest := ["Successfully sent: " + IntToString(sent)]
      + (["Failed: " + IntToString(failed)] + (Remaining(total, sent, failed, forced) + SummaryClosing()));
    OpeningPast(finished, forced, [tag + IntToString(total)] + rest, tag);
    ReadCountFinds(total, rest, tag);
  }

  /** The summary's sent count reads back as the number of contacts sent to. */
  lemma SummarySent(finished: string, total: int, sent: int, failed: int, forced: bool)
    ensures ReadCount(SummaryLines(finished, total, sent, failed, forced), "Successfully sent: ") == Some(sent)
  {
    var tag := "Successfully sent: ";
    assert tag[0] == 'S';
    var totalLine := "Total contacts: " + IntToString(total);
    assert totalLine[0] == 'T';
    var rest := ["Failed: " + IntToString(failed)] + (Remaining(total, sent, failed, forced) + SummaryClosing());
    OpeningPast(finished, forced, [totalLine] + ([tag + IntToString(sent)] + rest), tag);
    ReadCountPast(totalLine, [tag + IntToString(sent)] + rest, tag);
    ReadCountFinds(sent, rest, tag);
  }

  /** The summary's failed count reads back as the number of contacts that failed. */
  lemma SummaryFailed(finished: string, total: int, sent: int, failed: int, forced: bool)
    ensures ReadCount(SummaryLines(finished, total, sent, failed, forced), "Failed: ") == Some(failed)
  {
    var tag := "Failed: ";
    assert tag[0] == 'F';
    var totalLine, sentLine := "Total contacts: " + IntToString(total), "Successfully sent: " + IntToString(sent);
    assert totalLine[0] == 'T' && sentLine[0] == 'S';
    var rest := Remaining(total, sent, failed, forced) + SummaryClosing();
    OpeningPast(finished, forced, [totalLine] + ([sentLine] + ([tag + IntToString(failed)] + rest)), tag);
    ReadCountPast(totalLine, [sentLine] + ([tag + IntToString(failed)] + rest), tag);
    ReadCountPast(sentLine, [tag + IntToString(failed)] + rest, tag);
    ReadCountFinds(failed, rest, tag);
  }

  /** After the failed count, the remaining count is read only when the run was stopped. */
  lemma RemainingTail(total: int, sent: int, failed: int, forced: bool)
    ensures ReadCount(Remaining(total, sent, failed, forced) + SummaryClosing(), "Remaining contacts: ")
            == if forced then Some(total - (sent + failed)) else None
  {
    var tag := "Remaining contacts: ";
    assert tag[0] == 'R';
    ClosingPast(tag);
    if forced {
      ReadCountFinds(total - (sent + failed), SummaryClosing(), tag);
    } else {
      assert Remaining(total, sent, failed, forced) + SummaryClosing() == SummaryClosing();
    }
  }

  /** The remaining count is in the summary exactly when the run was stopped, and is the total
      less the contacts sent to or failed. */
  lemma SummaryRemaining(finished: string, total: int, sent: int, failed: int, forced: bool)
    ensures ReadCount(SummaryLines(finished, total, sent, failed, forced), "Remaining contacts: ")
            == if forced then Some(total - (sent + failed)) else None
  {
    var tag := "Remaining contacts: ";
    assert tag[0] == 'R';
    var totalLine, sentLine, failedLine :=
      "Total contacts: " + IntToString(total), "Successfully sent: " + IntToString(sent), "Failed: " + IntToString(failed);
    assert totalLine[0] == 'T' && sentLine[0] == 'S' && failedLine[0] == 'F';
    var rest := Remaining(total, sent, failed, forced) + SummaryClosing();
    OpeningPast(finished, forced, [totalLine] + ([sentLine] + ([failedLine] + rest)), tag);
    ReadCountPast(totalLine, [sentLine] + ([failedLine] + rest), tag);
    ReadCountPast(sentLine, [failedLine] + rest, tag);
    ReadCountPast(failedLine, rest, tag);
    RemainingTail(total, sent, failed, forced);
  }
}
