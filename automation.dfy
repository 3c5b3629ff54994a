/** The pass over the spreadsheet: detect the columns, write the log header, message each row's
    contact until the stop flag is seen, count the outcomes and write the summary. */
module Automation {
  import opened Wrappers
  import opened Search
  import opened Text
  import opened Sheet
  import opened ColumnDetection
  import opened Contacts
  import opened Caption
  import opened Feedback
  import opened ChatSend

  /** Once the stop flag is seen set, it stays set. */
  predicate Monotone(stop: seq<bool>)
  {
    forall i, j :: 0 <= i <= j < |stop| && stop[i] ==> stop[j]
  }

  /** The oracle gives every row enough attempt outcomes for the default retry bound. */
  predicate Covers(outcomes: seq<seq<Outcome>>, rows: nat)
  {
    |outcomes| == rows && forall r :: 0 <= r < rows ==> |outcomes[r]| >= Budget(DefaultMaxRetries)
  }

  /** What the pass needs of a non-empty sheet before the first row is handled. */
  predicate Ready(t: Table)
  {
    t.Valid() && |t.columns| > 0
  }

  /** How many rows the loop reaches: up to the first row before which the stop flag is seen. */
  function Visited(stop: seq<bool>, rows: nat): nat
    requires |stop| > rows
  {
    FirstTrue(stop[..rows], 0)
  }

  /** The loop, having passed `i` rows without seeing the flag, stops at row `i` exactly when the
      flag is seen there. */
  lemma VisitedStep(stop: seq<bool>, rows: nat, i: nat)
    requires i < rows < |stop| && i <= Visited(stop, rows)
    ensures stop[i] ==> Visited(stop, rows) == i
    ensures !stop[i] ==> i + 1 <= Visited(stop, rows)
  {
    var flags := stop[..rows];
    assert flags[i] == stop[i];
  }

  /** The column positions the pass reads: the detected phone column and the name column. */
  function PhoneAt(t: Table): nat
    requires Ready(t)
  {
    IndexOf(t.columns, PhoneColumn(t))
  }

  function NameAt(t: Table): nat
    requires Ready(t)
  {
    IndexOf(t.columns, NameColumn(t.columns, PhoneColumn(t)))
  }

  /** The contact of every row, read through the detected phone and name columns. */
  function RowContacts(t: Table): (cs: seq<Option<Contact>>)
    requires Ready(t)
  {
    CellContacts(t.rows, PhoneAt(t), NameAt(t))
  }

  /** Row `r`'s entry is that row's contact. */
  lemma RowContactsAt(t: Table, r: nat)
    requires Ready(t) && r < |t.rows|
    ensures |RowContacts(t)| == |t.rows| && RowContacts(t)[r] == RowContact(t, r)
  {
    CellContactsAt(t.rows, PhoneAt(t), NameAt(t), r);
  }

  /** How many of the first `v` rows have a contact. */
  function Contacted(cs: seq<Option<Contact>>, v: nat): nat
    requires v <= |cs|
  {
    if v == 0 then 0 else Contacted(cs, v - 1) + (if cs[v - 1].Some? then 1 else 0)
  }

  /** How many of the first `v` rows have a contact the image reaches. */
  function Sends(cs: seq<Option<Contact>>, outcomes: seq<seq<Outcome>>, v: nat): (r: nat)
    requires v <= |cs| && Covers(outcomes, |cs|)
    ensures r <= v
  {
    if v == 0 then 0
    else Sends(cs, outcomes, v - 1) + (if cs[v - 1].Some? && Delivered(outcomes[v - 1], DefaultMaxRetries) then 1 else 0)
  }

  /** How many of the first `v` rows have a contact the image does not reach. */
  function Fails(cs: seq<Option<Contact>>, outcomes: seq<seq<Outcome>>, v: nat): (r: nat)
    requires v <= |cs| && Covers(outcomes, |cs|)
    ensures r <= v
  {
    if v == 0 then 0
    else Fails(cs, outcomes, v - 1) + (if cs[v - 1].Some? && !Delivered(outcomes[v - 1], DefaultMaxRetries) then 1 else 0)
  }

  /** The feedback line of row `r`, if it has a contact. */
  function RowLines(cs: seq<Option<Contact>>, outcomes: seq<seq<Outcome>>, r: nat): seq<string>
    requires r < |cs| && Covers(outcomes, |cs|)
  {
    match cs[r]
    case None => []
    case Some(c) => [FeedbackLine(r + 1, |cs|, c.name, c.phone, Status(outcomes[r], DefaultMaxRetries))]
  }

  /** The feedback lines of the first `v` rows, in row order. */
  function RunLines(cs: seq<Option<Contact>>, outcomes: seq<seq<Outcome>>, v: nat): seq<string>
    requires v <= |cs| && Covers(outcomes, |cs|)
  {
    if v == 0 then [] else RunLines(cs, outcomes, v - 1) + RowLines(cs, outcomes, v - 1)
  }

  /** The browser actions for row `r`, if it has a contact. */
  function RowActions(cs: seq<Option<Contact>>, template: string, outcomes: seq<seq<Outcome>>, r: nat): seq<Action>
    requires r < |cs| && Covers(outcomes, |cs|)
  {
    match cs[r]
    case None => []
    case Some(c) =>
      var o := outcomes[r];
      Trace(o[..Attempts(o, DefaultMaxRetries)], ChatUrl(c.phone), Personalize(template, c.name))
  }

  /** The browser actions of the first `v` rows, row after row. */
  function RunActions(cs: seq<Option<Contact>>, template: string, outcomes: seq<seq<Outcome>>, v: nat): seq<Action>
    requires v <= |cs| && Covers(outcomes, |cs|)
  {
    if v == 0 then [] else RunActions(cs, template, outcomes, v - 1) + RowActions(cs, template, outcomes, v - 1)
  }

  /** Each accumulated quantity over `i + 1` rows is that over `i` rows and row `i`'s share. */
  lemma RunStep(cs: seq<Option<Contact>>, template: string, outcomes: seq<seq<Outcome>>, i: nat)
    requires i < |cs| && Covers(outcomes, |cs|)
    ensures Sends(cs, outcomes, i + 1)
            == Sends(cs, outcomes, i) + (if cs[i].Some? && Delivered(outcomes[i], DefaultMaxRetries) then 1 else 0)
    ensures Fails(cs, outcomes, i + 1)
            == Fails(cs, outcomes, i) + (if cs[i].Some? && !Delivered(outcomes[i], DefaultMaxRetries) then 1 else 0)
    ensures RunActions(cs, template, outcomes, i + 1) == RunActions(cs, template, outcomes, i) + RowActions(cs, template, outcomes, i)
    ensures RunLines(cs, outcomes, i + 1) == RunLines(cs, outcomes, i) + RowLines(cs, outcomes, i)
  {
  }

  /** The counters, browser actions and feedback lines after the first `i` rows. */
  predicate Accounted(cs: seq<Option<Contact>>, template: string, outcomes: seq<seq<Outcome>>, i: nat,
                      sent: nat, failed: nat, actions: seq<Action>, lines: seq<string>)
    requires i <= |cs| && Covers(outcomes, |cs|)
  {
    sent == Sends(cs, outcomes, i) && failed == Fails(cs, outcomes, i)
    && actions == RunActions(cs, template, outcomes, i) && lines == RunLines(cs, outcomes, i)
  }

  /** One pass of the loop body for row `i`: a row without a contact is skipped; otherwise the
      chat is opened and the outcome counted and logged. */
  method VisitRow(rows: seq<seq<string>>, phoneAt: nat, nameAt: nat, ghost cs: seq<Option<Contact>>,
                  template: string, outcomes: seq<seq<Outcome>>, i: nat,
                  sent: nat, failed: nat, actions: seq<Action>, lines: seq<string>)
    returns (sentNow: nat, failedNow: nat, actionsNow: seq<Action>, linesNow: seq<string>)
    requires HasCells(rows, phoneAt, nameAt) && cs == CellContacts(rows, phoneAt, nameAt)
    requires i < |rows| && Covers(outcomes, |rows|)
    requires Accounted(cs, template, outcomes, i, sent, failed, actions, lines)
    ensures Accounted(cs, template, outcomes, i + 1, sentNow, failedNow, actionsNow, linesNow)
  {
    RunStep(cs, template, outcomes, i);
    CellContactsAt(rows, phoneAt, nameAt, i);
    sentNow, failedNow, actionsNow, linesNow := sent, failed, actions, lines;
    var row := rows[i];
    var total := |rows|;
    var contact := ContactOf(row[phoneAt], row[nameAt]);
    assert cs[i] == contact;
    if contact.Some? {
      var c := contact.value;
      var ok, acts, line := OpenChatAndSend(c.phone, c.name, template, i + 1, total, DefaultMaxRetries, outcomes[i]);
      assert acts == RowActions(cs, template, outcomes, i) && [line] == RowLines(cs, outcomes, i);
      actionsNow := actions + acts;
      linesNow := lines + [line];
      if ok {
        sentNow := sent + 1;
      } else {
        failedNow := failed + 1;
      }
    }
  }

  /** The loop over the rows: stop before the first row at which the flag is seen, and otherwise
      visit each row's contact, read from the phone and name columns at `phoneAt` and `nameAt`. */
  method VisitRows(rows: seq<seq<string>>, phoneAt: nat, nameAt: nat, ghost cs: seq<Option<Contact>>,
                   template: string, outcomes: seq<seq<Outcome>>, stop: seq<bool>)
    returns (sent: nat, failed: nat, actions: seq<Action>, lines: seq<string>)
    requires HasCells(rows, phoneAt, nameAt) && cs == CellContacts(rows, phoneAt, nameAt)
    requires Covers(outcomes, |rows|) && |stop| == |rows| + 1
    ensures Visited(stop, |rows|) <= |cs|
    ensures Accounted(cs, template, outcomes, Visited(stop, |rows|), sent, failed, actions, lines)
  {
    var total := |rows|;
    sent, failed, actions, lines := 0, 0, [], [];
    var i := 0;
    while i < total
      invariant 0 <= i <= total && i <= Visited(stop, total)
      invariant Accounted(cs, template, outcomes, i, sent, failed, actions, lines)
    {
      VisitedStep(stop, total, i);
      if stop[i] {
        break;
      }
      sent, failed, actions, lines := VisitRow(rows, phoneAt, nameAt, cs, template, outcomes, i, sent, failed, actions, lines);
      i := i + 1;
    }
  }

  /** `process_contacts_and_send_image`. An empty sheet leaves the log as it was. Otherwise the
      log is replaced by the header, one feedback entry per contact reached before the stop flag,
      and the summary, whose stop mark is the flag as last seen. */
  method ProcessContacts(t: Table, template: string, outcomes: seq<seq<Outcome>>, stop: seq<bool>,
                         started: string, finished: string, log: seq<string>)
    returns (sent: nat, failed: nat, actions: seq<Action>, newLog: seq<string>)
    requires t.Valid() && (|t.rows| > 0 ==> |t.columns| > 0)
    requires Covers(outcomes, |t.rows|)
    requires |stop| == |t.rows| + 1 && Monotone(stop)
    ensures |t.rows| == 0 ==> sent == 0 && failed == 0 && actions == [] && newLog == log
    ensures |t.rows| > 0 ==>
              var v, cs := Visited(stop, |t.rows|), RowContacts(t);
              sent == Sends(cs, outcomes, v) && failed == Fails(cs, outcomes, v)
              && actions == RunActions(cs, template, outcomes, v)
              && newLog == HeaderLines(started) + RunLines(cs, outcomes, v)
                           + SummaryLines(finished, |t.rows|, sent, failed, stop[|t.rows|])
  {
    if |t.rows| == 0 {
      sent, failed, actions, newLog := 0, 0, [], log;
      return;
    }
    var phoneColumn := DetectPhoneColumn(t);
    var nameColumn := NameColumn(t.columns, phoneColumn);
    var total := |t.rows|;
    newLog := HeaderLines(started);
    var phoneAt, nameAt := IndexOf(t.columns, phoneColumn), IndexOf(t.columns, nameColumn);
    ghost var cs := RowContacts(t);
    var lines;
    sent, failed, actions, lines := VisitRows(t.rows, phoneAt, nameAt, cs, template, outcomes, stop);
    assert Accounted(cs, template, outcomes, Visited(stop, total), sent, failed, actions, lines);
    newLog := newLog + lines + SummaryLines(finished, total, sent, failed, stop[total]);
  }

  /** Every contact reached is counted once, as sent to or as failed, and gets one feedback line;
      rows without a contact count as neither. */
  lemma {:induction false} Conservation(cs: seq<Option<Contact>>, outcomes: seq<seq<Outcome>>, v: nat)
    requires v <= |cs| && Covers(outcomes, |cs|)
    ensures Sends(cs, outcomes, v) + Fails(cs, outcomes, v) == Contacted(cs, v) <= v
    ensures |RunLines(cs, outcomes, v)| == Contacted(cs, v)
  {
    if v > 0 {
      Conservation(cs, outcomes, v - 1);
    }
  }

  /** The summary's remaining count covers the rows never reached and the rows skipped for want
      of a phone number. */
  lemma RemainingCounts(cs: seq<Option<Contact>>, outcomes: seq<seq<Outcome>>, v: nat)
    requires v <= |cs| && Covers(outcomes, |cs|)
    ensures |cs| - (Sends(cs, outcomes, v) + Fails(cs, outcomes, v)) == (|cs| - v) + (v - Contacted(cs, v))
    ensures |cs| - (Sends(cs, outcomes, v) + Fails(cs, outcomes, v)) >= 0
  {
    Conservation(cs, outcomes, v);
  }

  /** The loop reaches the rows before the first one at which the flag is seen; if it stops early
      the flag is still set at the summary, and if the flag is clear at the summary every row was
      reached. */
  lemma VisitedMeaning(stop: seq<bool>, rows: nat)
    requires |stop| == rows + 1 && Monotone(stop)
    ensures Visited(stop, rows) <= rows
    ensures forall j :: 0 <= j < Visited(stop, rows) ==> !stop[j]
    ensures Visited(stop, rows) < rows ==> stop[Visited(stop, rows)] && stop[rows]
    ensures !stop[rows] ==> Visited(stop, rows) == rows
  {
    var flags := stop[..rows];
    var v := Visited(stop, rows);
    forall j | 0 <= j < v ensures !stop[j] {
      assert !flags[j];
    }
    if v < rows {
      assert flags[v];
    }
  }

  /** With the default retry bound the whole run navigates at most four times per contact reached. */
  lemma {:induction false} OpensBound(cs: seq<Option<Contact>>, template: string, outcomes: seq<seq<Outcome>>, v: nat)
    requires v <= |cs| && Covers(outcomes, |cs|)
    ensures Opens(RunActions(cs, template, outcomes, v)) <= 4 * Contacted(cs, v)
  {
    if v > 0 {
      OpensBound(cs, template, outcomes, v - 1);
      OpensConcat(RunActions(cs, template, outcomes, v - 1), RowActions(cs, template, outcomes, v - 1));
      match cs[v - 1]
      case None =>
        assert RowActions(cs, template, outcomes, v - 1) == [];
      case Some(c) =>
        var o := outcomes[v - 1];
        DefaultAttempts(o);
        TraceContents(o[..Attempts(o, DefaultMaxRetries)], ChatUrl(c.phone), Personalize(template, c.name));
    }
  }

  /** Each feedback line of the run names the contact count and a row position no later than the
      last row reached. */
  lemma {:induction false} RunLinesReadBack(cs: seq<Option<Contact>>, outcomes: seq<seq<Outcome>>, v: nat)
    requires v <= |cs| && Covers(outcomes, |cs|)
    ensures forall k :: 0 <= k < |RunLines(cs, outcomes, v)| ==>
              var h := ReadLineHeader(RunLines(cs, outcomes, v)[k]);
              h.Some? && 1 <= h.value.0 <= v && h.value.1 == |cs|
  {
    if v > 0 {
      RunLinesReadBack(cs, outcomes, v - 1);
      var init := RunLines(cs, outcomes, v - 1);
      var here := RowLines(cs, outcomes, v - 1);
      match cs[v - 1]
      case None =>
        assert RunLines(cs, outcomes, v) == init;
      case Some(c) =>
        var status := Status(outcomes[v - 1], DefaultMaxRetries);
        FeedbackLineReadBack(v, |cs|, c.name, c.phone, status);
        forall k | 0 <= k < |init| + 1
          ensures var h := ReadLineHeader((init + here)[k]); h.Some? && 1 <= h.value.0 <= v && h.value.1 == |cs|
        {
          if k < |init| {
            assert (init + here)[k] == init[k];
          } else {
            assert (init + here)[k] == here[0];
          }
        }
    }
  }
}
