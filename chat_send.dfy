/** The bounded retry loop that opens one contact's chat and sends the image with its caption.
    Each attempt's outcome, as the browser would report it, is read from an oracle sequence. */
module ChatSend {
  import opened Search
  import opened Text
  import opened Caption
  import opened Feedback

  /** What one attempt comes to: the chat did not load, the send step reported failure, opening
      the chat raised an error with the given message, or the image went out. */
  datatype Outcome = NotLoaded | SendFalse | Raised(message: string) | Sent

  /** What the loop asks of the browser: open a chat URL, or send the image with a caption. */
  datatype Action = Open(url: string) | SendImage(caption: string)

  /** The retry bound every contact is processed with. */
  const DefaultMaxRetries: int := 3

  /** How many characters of an error message reach the feedback line. */
  const ErrorExcerpt: nat := 100

  const SuccessStatus := "successfully sent"
  const ExhaustedStatus := "failed after maximum retries"

  /** The chat URL for a phone number. */
  function ChatUrl(phone: string): string
  {
    "https://web.whatsapp.com/send?phone=" + phone
  }

  /** How many attempts the loop allows: `retry_count` runs from 0 to `max_retries`. */
  function Budget(maxRetries: int): nat
  {
    if maxRetries < 0 then 0 else maxRetries + 1
  }

  /** Whether the chat loaded on an attempt (the caption is built and the send step is run). */
  predicate Loaded(o: Outcome)
  {
    o.SendFalse? || o.Sent?
  }

  /** Which attempts sent the image. */
  function SentFlags(os: seq<Outcome>): (f: seq<bool>)
    ensures |f| == |os|
    ensures forall k :: 0 <= k < |os| ==> (f[k] <==> os[k].Sent?)
  {
    seq(|os|, k requires 0 <= k < |os| => os[k].Sent?)
  }

  /** The first attempt within the budget on which the image went out, or the budget. */
  function FirstSent(oracle: seq<Outcome>, maxRetries: int): (k: nat)
    requires |oracle| >= Budget(maxRetries)
  {
    FirstTrue(SentFlags(oracle[..Budget(maxRetries)]), 0)
  }

  /** Whether the contact is reached: some attempt within the budget sends the image. */
  predicate Delivered(oracle: seq<Outcome>, maxRetries: int)
    requires |oracle| >= Budget(maxRetries)
  {
    FirstSent(oracle, maxRetries) < Budget(maxRetries)
  }

  /** How many attempts are made: up to the first that sends, else the whole budget. */
  function Attempts(oracle: seq<Outcome>, maxRetries: int): nat
    requires |oracle| >= Budget(maxRetries)
  {
    if Delivered(oracle, maxRetries) then FirstSent(oracle, maxRetries) + 1 else Budget(maxRetries)
  }

  /** The status written to the feedback line: success, the excerpt of the error that ended the
      last attempt, or the exhausted-retries message. */
  function Status(oracle: seq<Outcome>, maxRetries: int): (r: string)
    requires |oracle| >= Budget(maxRetries)
    ensures r == SuccessStatus <==> Delivered(oracle, maxRetries)
  {
    var b := Budget(maxRetries);
    if Delivered(oracle, maxRetries) then SuccessStatus
    else if b > 0 && oracle[b - 1].Raised? then
      var failed := "failed - " + Take(oracle[b - 1].message, ErrorExcerpt);
      assert failed[0] != SuccessStatus[0];
      failed
    else ExhaustedStatus
  }

  /** The browser actions of one attempt. */
  function Step(o: Outcome, url: string, caption: string): seq<Action>
  {
    [Open(url)] + (if Loaded(o) then [SendImage(caption)] else [])
  }

  /** The browser actions of a run of attempts, in order. */
  function Trace(os: seq<Outcome>, url: string, caption: string): seq<Action>
  {
    if |os| == 0 then [] else Trace(os[..|os| - 1], url, caption) + Step(os[|os| - 1], url, caption)
  }

  /** `open_whatsapp_chat_and_send_image`: up to `maxRetries + 1` attempts, each opening the chat
      and, once it loads, sending the image with the personalised caption; an error on the last
      attempt ends the loop early. Exactly one feedback line is written. */
  method OpenChatAndSend(phone: string, name: string, template: string, index: nat, total: nat,
                         maxRetries: int, oracle: seq<Outcome>)
    returns (ok: bool, actions: seq<Action>, line: string)
    requires |oracle| >= Budget(maxRetries)
    ensures ok == Delivered(oracle, maxRetries)
    ensures actions == Trace(oracle[..Attempts(oracle, maxRetries)], ChatUrl(phone), Personalize(template, name))
    ensures line == FeedbackLine(index, total, name, phone, Status(oracle, maxRetries))
  {
    ghost var url, caption := ChatUrl(phone), Personalize(template, name);
    ghost var b := Budget(maxRetries);
    var retryCount := 0;
    actions := [];
    while retryCount <= maxRetries
      invariant 0 <= retryCount <= b
      invariant forall j :: 0 <= j < retryCount ==> !oracle[j].Sent?
      invariant retryCount == b && b > 0 ==> !oracle[b - 1].Raised?
      invariant actions == Trace(oracle[..retryCount], url, caption)
      decreases b - retryCount
    {
      var outcome := oracle[retryCount];
      TraceExtend(oracle, retryCount, url, caption);
      var whatsappUrl := ChatUrl(phone);
      actions := actions + [Open(whatsappUrl)];
      match outcome {
        case Raised(message) =>
          if retryCount < maxRetries {
            retryCount := retryCount + 1;
          } else {
            NoneSent(oracle, maxRetries);
            var status := "failed - " + Take(message, ErrorExcerpt);
            line := FeedbackLine(index, total, name, phone, status);
            ok := false;
            return;
          }
        case NotLoaded =>
          retryCount := retryCount + 1;
        case SendFalse =>
          var text := Personalize(template, name);
          actions := actions + [SendImage(text)];
          assert actions == Trace(oracle[..retryCount], url, caption) + Step(outcome, url, caption);
          retryCount := retryCount + 1;
        case Sent =>
          var text := Personalize(template, name);
          actions := actions + [SendImage(text)];
          assert actions == Trace(oracle[..retryCount], url, caption) + Step(outcome, url, caption);
          SentAt(oracle, maxRetries, retryCount);
          line := FeedbackLine(index, total, name, phone, SuccessStatus);
          ok := true;
          return;
      }
    }
    NoneSent(oracle, maxRetries);
    line := FeedbackLine(index, total, name, phone, ExhaustedStatus);
    ok := false;
  }

  /** When attempt `k` is the first to send, the contact is reached after `k + 1` attempts. */
  lemma SentAt(oracle: seq<Outcome>, maxRetries: int, k: nat)
    requires |oracle| >= Budget(maxRetries) && k < Budget(maxRetries) && oracle[k].Sent?
    requires forall j :: 0 <= j < k ==> !oracle[j].Sent?
    ensures Delivered(oracle, maxRetries) && Attempts(oracle, maxRetries) == k + 1
    ensures Status(oracle, maxRetries) == SuccessStatus
  {
    FirstTrueIs(SentFlags(oracle[..Budget(maxRetries)]), k);
  }

  /** When no attempt sends, the contact is not reached, every attempt is made, and the status
      names the error of the last attempt if it raised one. */
  lemma NoneSent(oracle: seq<Outcome>, maxRetries: int)
    requires |oracle| >= Budget(maxRetries)
    requires forall j :: 0 <= j < Budget(maxRetries) ==> !oracle[j].Sent?
    ensures !Delivered(oracle, maxRetries) && Attempts(oracle, maxRetries) == Budget(maxRetries)
    ensures var b := Budget(maxRetries);
            Status(oracle, maxRetries)
            == if b > 0 && oracle[b - 1].Raised? then "failed - " + Take(oracle[b - 1].message, ErrorExcerpt)
               else ExhaustedStatus
  {
    var b := Budget(maxRetries);
    FirstTrueIs(SentFlags(oracle[..b]), b);
  }

  /** One more attempt adds its own actions at the end of the trace. */
  lemma TraceExtend(oracle: seq<Outcome>, k: nat, url: string, caption: string)
    requires k < |oracle|
    ensures Trace(oracle[..k + 1], url, caption) == Trace(oracle[..k], url, caption) + Step(oracle[k], url, caption)
  {
    assert oracle[..k + 1][..k] == oracle[..k];
  }

  /** The contact is reached exactly when some attempt within the budget sends the image. */
  lemma DeliveredIff(oracle: seq<Outcome>, maxRetries: int)
    requires |oracle| >= Budget(maxRetries)
    ensures Delivered(oracle, maxRetries) <==> exists k :: 0 <= k < Budget(maxRetries) && oracle[k].Sent?
  {
    var b := Budget(maxRetries);
    var flags := SentFlags(oracle[..b]);
    if k :| 0 <= k < b && oracle[k].Sent? {
      assert flags[k];
    }
  }

  /** When the contact is reached, the last attempt is the earliest one that sends. */
  lemma DeliveredOnFirstSend(oracle: seq<Outcome>, maxRetries: int)
    requires |oracle| >= Budget(maxRetries) && Delivered(oracle, maxRetries)
    ensures 1 <= Attempts(oracle, maxRetries) <= Budget(maxRetries)
    ensures oracle[Attempts(oracle, maxRetries) - 1].Sent?
    ensures forall j :: 0 <= j < Attempts(oracle, maxRetries) - 1 ==> !oracle[j].Sent?
  {
    var b := Budget(maxRetries);
    var flags := SentFlags(oracle[..b]);
    forall j | 0 <= j < Attempts(oracle, maxRetries) - 1 ensures !oracle[j].Sent? {
      assert !flags[j];
    }
  }

  /** When no attempt sends, every attempt of the budget is made. */
  lemma UndeliveredUsesBudget(oracle: seq<Outcome>, maxRetries: int)
    requires |oracle| >= Budget(maxRetries) && !Delivered(oracle, maxRetries)
    ensures Attempts(oracle, maxRetries) == Budget(maxRetries)
    ensures forall j :: 0 <= j < Budget(maxRetries) ==> !oracle[j].Sent?
  {
    var b := Budget(maxRetries);
    var flags := SentFlags(oracle[..b]);
    forall j | 0 <= j < b ensures !oracle[j].Sent? {
      assert !flags[j];
    }
  }

  /** With the default bound a contact gets at most four attempts, and at least one. */
  lemma DefaultAttempts(oracle: seq<Outcome>)
    requires |oracle| >= Budget(DefaultMaxRetries)
    ensures 1 <= Attempts(oracle, DefaultMaxRetries) <= 4
  {
    if Delivered(oracle, DefaultMaxRetries) {
      DeliveredOnFirstSend(oracle, DefaultMaxRetries);
    }
  }

  /** With any retry bound a contact's run navigates at most `maxRetries + 1` times, exactly that
      often when the image never goes out, and at least once when the budget allows an attempt. */
  lemma RetryBound(oracle: seq<Outcome>, maxRetries: int, url: string, caption: string)
    requires |oracle| >= Budget(maxRetries)
    ensures var opens := Opens(Trace(oracle[..Attempts(oracle, maxRetries)], url, caption));
            opens <= Budget(maxRetries)
            && (!Delivered(oracle, maxRetries) ==> opens == Budget(maxRetries))
            && (Budget(maxRetries) > 0 ==> opens >= 1)
  {
    TraceContents(oracle[..Attempts(oracle, maxRetries)], url, caption);
    if Delivered(oracle, maxRetries) {
      DeliveredOnFirstSend(oracle, maxRetries);
    }
  }

  /** When every attempt reaches the chat but the send step fails, all `maxRetries + 1` attempts
      navigate and the status is the exhausted-retries message. */
  lemma AlwaysSendFalse(oracle: seq<Outcome>, maxRetries: int, url: string, caption: string)
    requires |oracle| >= Budget(maxRetries)
    requires forall j :: 0 <= j < |oracle| ==> oracle[j] == SendFalse
    ensures !Delivered(oracle, maxRetries)
    ensures Opens(Trace(oracle[..Attempts(oracle, maxRetries)], url, caption)) == Budget(maxRetries)
    ensures Status(oracle, maxRetries) == ExhaustedStatus
  {
    NoneSent(oracle, maxRetries);
    RetryBound(oracle, maxRetries, url, caption);
  }

  /** The status is the success message exactly when the contact is reached; otherwise it is the
      excerpt of the error raised on the last attempt, or the exhausted-retries message. */
  lemma StatusCases(oracle: seq<Outcome>, maxRetries: int)
    requires |oracle| >= Budget(maxRetries)
    ensures Status(oracle, maxRetries) == SuccessStatus <==> Delivered(oracle, maxRetries)
    ensures !Delivered(oracle, maxRetries) && Budget(maxRetries) > 0 && oracle[Budget(maxRetries) - 1].Raised? ==>
            var message := oracle[Budget(maxRetries) - 1].message;
            exists excerpt :: excerpt <= message
                           && |excerpt| == (if |message| <= ErrorExcerpt then |message| else ErrorExcerpt)
                           && Status(oracle, maxRetries) == "failed - " + excerpt
    ensures !Delivered(oracle, maxRetries) && (Budget(maxRetries) == 0 || !oracle[Budget(maxRetries) - 1].Raised?) ==>
            Status(oracle, maxRetries) == ExhaustedStatus
  {
    var b := Budget(maxRetries);
    if !Delivered(oracle, maxRetries) {
      if b > 0 && oracle[b - 1].Raised? {
        var excerpt := Take(oracle[b - 1].message, ErrorExcerpt);
        assert ("failed - " + excerpt)[0] == 'f';
        assert Status(oracle, maxRetries) == "failed - " + excerpt;
      } else {
        assert ExhaustedStatus[0] == 'f';
      }
      assert SuccessStatus[0] == 's';
    }
  }

  /** How many of the outcomes loaded the chat. */
  function LoadedCount(os: seq<Outcome>): nat
  {
    if |os| == 0 then 0 else LoadedCount(os[..|os| - 1]) + (if Loaded(os[|os| - 1]) then 1 else 0)
  }

  /** How many of the actions open a chat. */
  function Opens(actions: seq<Action>): nat
  {
    if |actions| == 0 then 0 else Opens(actions[..|actions| - 1]) + (if actions[|actions| - 1].Open? then 1 else 0)
  }

  /** Navigations of two runs of actions add up. */
  lemma {:induction false} OpensConcat(a: seq<Action>, b: seq<Action>)
    ensures Opens(a + b) == Opens(a) + Opens(b)
    decreases |b|
  {
    if |b| == 0 {
      assert a + b == a;
    } else {
      assert (a + b)[..|a + b| - 1] == a + b[..|b| - 1];
      OpensConcat(a, b[..|b| - 1]);
    }
  }

  /** A run's trace opens the same chat once per attempt and sends the same caption once per
      attempt on which the chat loaded, and nothing else. */
  lemma {:induction false} TraceContents(os: seq<Outcome>, url: string, caption: string)
    ensures Opens(Trace(os, url, caption)) == |os|
    ensures |Trace(os, url, caption)| == |os| + LoadedCount(os)
    ensures forall k :: 0 <= k < |Trace(os, url, caption)| ==>
              Trace(os, url, caption)[k] == Open(url) || Trace(os, url, caption)[k] == SendImage(caption)
  {
    if |os| > 0 {
      var init := os[..|os| - 1];
      TraceContents(init, url, caption);
      var step := Step(os[|os| - 1], url, caption);
      OpensConcat(Trace(init, url, caption), step);
      OpensStep(os[|os| - 1], url, caption);
    }
  }

  /** One attempt opens the chat once. */
  lemma OpensStep(o: Outcome, url: string, caption: string)
    ensures Opens(Step(o, url, caption)) == 1
  {
    var s := Step(o, url, caption);
    if Loaded(o) {
      assert s == [Open(url), SendImage(caption)];
      assert s[..1] == [Open(url)];
      assert [Open(url)][..0] == [];
      assert Opens([Open(url)]) == 1;
      assert Opens(s) == Opens(s[..1]);
    } else {
      assert s == [Open(url)];
      assert s[..0] == [];
    }
  }

  /** A run that reaches the contact ends with the image going out with the caption. */
  lemma DeliveredEndsWithSend(oracle: seq<Outcome>, maxRetries: int, url: string, caption: string)
    requires |oracle| >= Budget(maxRetries) && Delivered(oracle, maxRetries)
    ensures var t := Trace(oracle[..Attempts(oracle, maxRetries)], url, caption);
            |t| >= 2 && t[|t| - 1] == SendImage(caption) && t[|t| - 2] == Open(url)
  {
    DeliveredOnFirstSend(oracle, maxRetries);
    var n := Attempts(oracle, maxRetries);
    var os := oracle[..n];
    assert os[..|os| - 1] == oracle[..n - 1];
  }
}
