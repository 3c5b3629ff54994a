# WhatsApp image-broadcast automation: the decision layer

`whatsapp.py` reads a spreadsheet of contacts and sends each of them one image with a
personalised caption through WhatsApp Web. It logs one feedback entry per contact to
`feedback.txt` and finishes with a summary. Almost all of the script drives a browser and
the operating system's clipboard. This project models, in Dafny, the sequential logic between
those calls, and proves what that logic promises:

- **Column inference** (`ColumnDetection`). `auto_detect_phone_column` has three stages:
  header keywords, then a vote on the digit counts of each column's first five cells, then the
  first column. It is modelled as a method with the source's nested loops, proved equal to the
  specification function `PhoneColumn`. `auto_detect_name_column` is modelled as the function
  `NameColumn`. It uses header keywords, skipping the phone column, then the first non-phone
  column, then the first column.
- **Contact derivation** (`Text`, `Contacts`). The phone is the digits of the stripped phone
  cell. The name is the stripped name cell, or the phone when that is empty. A row whose phone
  has no digit is skipped.
- **Caption templating** (`Caption`). This is `str.replace("{name}", name)` as a left-to-right
  scan.
- **The bounded retry loop** (`ChatSend`), i.e. `open_whatsapp_chat_and_send_image`. The
  browser and the image sender are replaced by an oracle: one outcome per possible attempt,
  `NotLoaded | SendFalse | Raised(message) | Sent`. The method returns:
  - whether the image went out;
  - the browser actions it asked for (`Open(url)`, `SendImage(caption)`);
  - the one feedback line it writes.
- **The driver loop** (`Automation`), i.e. `process_contacts_and_send_image`. It detects the
  columns and truncates the log to its header. Then it walks the rows, checking the stop flag
  at the top of each iteration, and counts successes and failures. It ends with the summary.
  The stop flag is a sequence of observations: one per iteration, plus the read made by the
  `finally` block.
- **Log text** (`Feedback`, `Numerals`). The exact strings of `log_feedback` and `log_summary`
  are modelled, with readers that parse the numbers back out of them.

The log file is modelled as a sequence of entries, one per write of `log_feedback` or one per
line of the header and summary. The file holds each entry followed by `"\n"`.
Timestamps are string parameters.

## Model

| member | source | states |
|---|---|---|
| Search.FirstTrue | whatsapp.py:347-351 | The earliest-match search behind every "first column that ..." rule: the result is in range, marks a hit when below the end, and nothing before it is a hit. |
| Search.FirstTrueIs | whatsapp.py:354-369 | A position with no hit before it that is a hit itself, or the end, is the earliest match. |
| Text.DigitsOnly | whatsapp.py:476 | `''.join(filter(str.isdigit, s))` yields digits only and is never longer than `s`. DigitsOnlyConcat, DigitsOnlyOfDigits and DigitsOnlyDropLast below pin which characters it keeps, and DigitsOnlyDetermined shows that these laws leave no other filter. |
| Text.DigitsOnlyConcat | whatsapp.py:476 | Digit filtering distributes over concatenation, so the output is the filtered pieces in order. |
| Text.DigitsOnlyDropLast | whatsapp.py:476 | A trailing non-digit adds nothing to the filtered text. |
| Text.DigitsOnlyDetermined | whatsapp.py:476 | Any function on strings that distributes over concatenation, keeps a single digit and drops a single non-digit equals the digit filter. DigitsOnlyConcat, DigitsOnlyOfDigits and DigitsOnlyDropLast are those laws for `DigitsOnly`, so together they pin the output as the in-order subsequence of the input's digits. |
| Text.DigitsOnlyOfDigits | whatsapp.py:476 | A string of digits is left unchanged. |
| Text.DigitsOnlyIdempotent | whatsapp.py:476 | Filtering twice is the same as filtering once. |
| Text.DigitsOnlyExample | whatsapp.py:474-476 | `"+1 (555) 123-4567"` becomes `"15551234567"`. |
| Text.Strip | whatsapp.py:474-479 | `str.strip()` never lengthens its input, and what it returns is empty or neither starts nor ends with whitespace. StripSpec below pins it as the middle slice. |
| Text.StripSpec | whatsapp.py:474 | `str.strip()` returns a contiguous middle slice `s[i..j]`, only whitespace lies outside it, and it neither starts nor ends with whitespace. |
| Text.DigitsOnlyStrip | whatsapp.py:474-476 | Stripping the phone cell before filtering its digits changes nothing. |
| Text.Take | whatsapp.py:327 | `s[:n]`: a prefix of `s` of length exactly `min(|s|, n)`. |
| Numerals.NatToString | whatsapp.py:99 | `str(n)` on a non-negative integer is a non-empty string of digits in canonical form: it opens with `0` exactly when `n` is zero, and then it is that single digit. |
| Numerals.NatToStringCanonical | whatsapp.py:99 | Any digit text without a leading zero is the rendering of its own value, so with ParseNatToString `str(n)` is the only such text that reads back as `n`. |
| Numerals.ParseNatToString | whatsapp.py:99 | Reading back `str(n)` gives `n`. |
| Numerals.IntToStringRoundTrip | whatsapp.py:123-129 | `str(i)` of any integer is integer text and reads back as `i`. |
| Numerals.LeadingDigitsAt | whatsapp.py:99 | The digit run that opens a string ends at the first non-digit. |
| Sheet.Sample | whatsapp.py:356 | `head(5)`: exactly `min(5, rows)` cells, the column's topmost ones in order. |
| Sheet.IndexOf | whatsapp.py:474 | The position of a column name: the earliest equal name, and in range whenever the name is present. |
| ColumnDetection.PhoneVotes | whatsapp.py:359-365 | The number of phone-like cells never exceeds the number of cells. |
| ColumnDetection.PhoneColumn | whatsapp.py:333-372 | The detected phone column is always one of the columns. |
| ColumnDetection.PhoneHeaderWins | whatsapp.py:344-351 | If some lower-cased header contains a phone keyword, the earliest such column is chosen, whatever the cells hold. |
| ColumnDetection.PhoneContentVote | whatsapp.py:354-369 | With no keyword header, the earliest column with at least 3 sampled cells of 7 to 15 digits is chosen. |
| ColumnDetection.PhoneFallback | whatsapp.py:371-372 | With no keyword header and no vote winner, the first column is chosen. |
| ColumnDetection.MatchesPhoneKeyword | whatsapp.py:348-351 | The keyword loop over one lower-cased header returns true exactly when the header contains a phone keyword. |
| ColumnDetection.CountPhoneLike | whatsapp.py:359-365 | The `phone_count` loop counts exactly the sampled cells with 7 to 15 digits. |
| ColumnDetection.DetectPhoneColumn | whatsapp.py:333-372 | The two nested-loop passes with early return, then the fallback, return exactly `PhoneColumn`. |
| ColumnDetection.NameColumn | whatsapp.py:374-404 | The name column is always one of the columns. |
| ColumnDetection.NameColumnAvoidsPhone | whatsapp.py:389-401 | If any column other than the phone column exists, the name column is not the phone column. |
| ColumnDetection.NameHeaderWins | whatsapp.py:389-396 | The earliest non-phone column whose lower-cased header contains a name keyword is chosen. |
| ColumnDetection.NameFallback | whatsapp.py:398-401 | With no keyword outside the phone column, the earliest non-phone column is chosen. |
| ColumnDetection.NameOnlyColumn | whatsapp.py:403-404 | When the phone column is the only column, it is also the name column. |
| Contacts.ContactOf | whatsapp.py:474-481 | The contact of one row, or none: a contact's phone is non-empty and all digits, and its name is never empty. ContactOfMeaning below states when a row is skipped and what phone and name are. |
| Contacts.ContactOfMeaning | whatsapp.py:474-485 | A row is skipped exactly when its phone cell has no digit. Otherwise the phone is that cell's digits and the name is the stripped name cell, or the phone when that is blank, so the name is never empty. |
| Contacts.ContactOfExample | whatsapp.py:474-481 | The phone cell `" +1 (555) 123-4567 "` with a blank name cell gives phone and name `"15551234567"`. |
| Contacts.CellContacts | whatsapp.py:468-485 | The loop's per-row contact derivation yields one entry per row. |
| Contacts.CellContactsAt | whatsapp.py:474-481 | Row `r`'s entry holds the contact derived from that row's phone and name cells. |
| Caption.Personalize | whatsapp.py:307 | `caption_template.replace("{name}", name)`: replacing the token by itself leaves the template unchanged. PersonalizeWithoutPlaceholder and PersonalizeAtPlaceholder below characterise it. |
| Caption.PersonalizeWithoutPlaceholder | whatsapp.py:307 | A template with no `{name}` is returned unchanged. |
| Caption.PersonalizeAtPlaceholder | whatsapp.py:307 | The text before the first `{name}` is kept, that token becomes the name, and replacement resumes after the token (occurrences never overlap and the name is not rescanned). |
| Caption.PersonalizeExample | whatsapp.py:307 | `"Hi {name}!"` with name `"Alex"` gives `"Hi Alex!"`. |
| Feedback.SignatureRightAligned | whatsapp.py:133-135 | The signature line is 50 characters wide: spaces, then the signature flush right. |
| Feedback.HeaderLines | whatsapp.py:437-440 | The log after truncation at the start of a run: the start banner ending in the timestamp, a 50-wide rule of dashes, and a blank line. |
| Feedback.FeedbackLine | whatsapp.py:99 | `log_feedback`'s text opens with `[` and is longer than its status. FeedbackLineReadBack below reads back the position, the total and the rest. |
| Feedback.FeedbackLineReadBack | whatsapp.py:99 | A feedback line has the form `[index/total] name -- phone : status`: reading its header gives back `index`, `total` and `name -- phone : status`. |
| Feedback.ReadCountFinds | whatsapp.py:123-129 | A `tag + str(value)` summary line reads back as `value`. |
| Feedback.SummaryLines | whatsapp.py:113-135 | `log_summary`'s text: 10 lines, or 11 when the run was stopped; the third is the banner saying how the run ended, and it closes with the signature line and a blank line. SummaryTotal, SummarySent, SummaryFailed and SummaryRemaining below read the counts back. |
| Feedback.SummaryTotal | whatsapp.py:123 | The summary's `Total contacts:` line carries the total. |
| Feedback.SummarySent | whatsapp.py:124 | The summary's `Successfully sent:` line carries the success count. |
| Feedback.SummaryFailed | whatsapp.py:125 | The summary's `Failed:` line carries the failure count. |
| Feedback.SummaryRemaining | whatsapp.py:127-129 | A `Remaining contacts:` line appears exactly when the run was stopped, and carries `total - (sent + failed)`. |
| ChatSend.OpenChatAndSend | whatsapp.py:288-331 | The result is true exactly when the contact is reached. The actions are the trace of the attempts up to the first send, or of the whole budget. The single line is the feedback line with the status the outcomes determine. |
| ChatSend.SentAt | whatsapp.py:310-313 | When attempt `k` is the first to send, the loop stops after `k + 1` attempts with status `successfully sent`. |
| ChatSend.NoneSent | whatsapp.py:319-331 | When no attempt sends, all `max_retries + 1` attempts run. The status is `failed - ` and the first 100 characters of the error if the last attempt raised one, otherwise `failed after maximum retries`. |
| ChatSend.DeliveredIff | whatsapp.py:288-331 | The result is true iff some attempt within the budget has outcome `Sent`. |
| ChatSend.DeliveredOnFirstSend | whatsapp.py:310-313 | On success the last attempt made is the earliest `Sent` one, and no earlier attempt sent. |
| ChatSend.UndeliveredUsesBudget | whatsapp.py:289 | On failure every one of the `max_retries + 1` attempts was made and none sent. |
| ChatSend.DefaultAttempts | whatsapp.py:271 | With the default `max_retries=3`, a contact gets between one and four attempts. |
| ChatSend.RetryBound | whatsapp.py:288-331 | For any `max_retries`, a contact's run navigates at most `max_retries + 1` times, exactly that often when the image never goes out, and at least once when any attempt is allowed. |
| ChatSend.AlwaysSendFalse | whatsapp.py:310-330 | When every attempt loads the chat but the send step fails, all `max_retries + 1` attempts navigate and the status is `failed after maximum retries`. |
| ChatSend.Status | whatsapp.py:312-330 | The status written for a contact is `successfully sent` exactly when the image went out. StatusCases below gives the failure texts. |
| ChatSend.StatusCases | whatsapp.py:312-330 | The status is `successfully sent` iff the contact is reached. Otherwise it is `failed - ` plus the prefix of the last attempt's error of length `min(len(e), 100)`, or, with no such error, `failed after maximum retries`. |
| ChatSend.TraceContents | whatsapp.py:292-315 | A run opens the contact's chat URL once per attempt and sends the personalised caption once per attempt whose chat loaded, and asks for nothing else. |
| ChatSend.OpensStep | whatsapp.py:298 | Every attempt navigates exactly once. |
| ChatSend.OpensConcat | whatsapp.py:298 | Navigations of consecutive action runs add up. |
| ChatSend.DeliveredEndsWithSend | whatsapp.py:298-313 | A successful run ends by opening the chat and then sending the caption. |
| Automation.VisitedStep | whatsapp.py:468-472 | A row the loop reaches without the flag set is visited, and the loop stops at the first row where the flag is seen. |
| Automation.RowContactsAt | whatsapp.py:474-481 | The contact of row `r` is read through the detected phone and name columns. |
| Automation.VisitRow | whatsapp.py:474-491 | One iteration: a row without a phone changes nothing. Otherwise it calls the retry loop with position `i + 1` and the row count, and adds one to the success or to the failure counter. |
| Automation.VisitRows | whatsapp.py:465-491 | The loop stops before the first row at which the flag is seen. The counters, actions and lines are those of the rows visited. |
| Automation.ProcessContacts | whatsapp.py:406-505 | An empty sheet leaves the log untouched. Otherwise the log becomes the header, one feedback entry per contact reached, and the summary, with the stop state as read in `finally`. The counters and actions are those of the rows before the first stop observation. |
| Automation.Sends | whatsapp.py:483-488 | `successful_sends` after the first `v` rows never exceeds `v`; Conservation below adds it up with `failed_sends`. |
| Automation.Fails | whatsapp.py:483-491 | `failed_sends` after the first `v` rows never exceeds `v`; Conservation below adds it up with `successful_sends`. |
| Automation.Conservation | whatsapp.py:483-491 | `successful_sends + failed_sends` equals the number of visited rows with a phone, which never exceeds the rows visited, and there is one feedback entry (one `log_feedback` write) per such row. |
| Automation.RemainingCounts | whatsapp.py:127-129 | The remaining count is the unvisited rows plus the visited rows skipped for lack of a phone, and is never negative. |
| Automation.VisitedMeaning | whatsapp.py:468-472 | The visited rows are those before the first set observation. If the loop stopped early, the flag is still set at the summary. If the flag is clear at the summary, every row was visited. |
| Automation.OpensBound | whatsapp.py:289-298 | The whole run navigates at most four times per contact reached. |
| Automation.RunLinesReadBack | whatsapp.py:99 | Every feedback entry of the run reads back with the row count as total and a position between 1 and the rows visited. |

## Left out

- Selenium (`webdriver.Chrome`, `driver.get`, `wait_for_chat_to_load`) and
  `send_image_with_caption_to_chat` are foreign calls on wall-clock time and the OS clipboard.
  - They are replaced by the outcome oracle.
  - `Raised` stands for an error from `driver.get`. The two helpers catch their own errors
    and answer `False`. Apart from `driver.get`, only the `print` calls in the `try` body can
    raise: whatsapp.py:294-295, before `driver.get`, and 302, 311 and 315, after the helpers.
- Failures of the `print` calls are not modelled. An encoding error in any of them would already
  have been raised by the `print` at whatsapp.py:484, which shows the same name and phone.
  What is left is an error of the output stream itself. Such a stream also makes the
  handler's own `print(f"Error: {e}")` at whatsapp.py:320 raise. That line sits outside any
  `try`, so the exception leaves `open_whatsapp_chat_and_send_image` and ends the run through
  the whatsapp.py:494-496 path below. The same holds for an error message that line 320
  cannot print. In particular the model has no outcome for "the image went out, then the
  attempt raised" at line 311: `Sent` always ends the loop in success.
- An `Open(url)` action is a navigation the loop asks for when it calls `driver.get`, which
  may raise instead of navigating. ChatSend.Opens therefore counts requested navigations.
- The initial `driver.get("https://web.whatsapp.com/")` and the 45-second wait happen before
  the loop, and their effects are invisible to the model. The `time.sleep` pauses are left
  out too.
- The `except` path at whatsapp.py:494-496 is left out. It catches two kinds of failure:
  - a failure of `webdriver.Chrome` or of the first `driver.get`, before line 465, after which
    the `finally` refers to counters that were never assigned;
  - an exception escaping the loop body once the counters exist, for instance from the `print`
    at whatsapp.py:484, which shows the contact's name and phone outside the retry function's
    own `try`. Such an exception ends the run: the model does not write the
    `[0/N] SYSTEM -- ERROR : Browser initialization failed: ...` line, and does not write the
    summary of the counters reached so far. Its loop always runs to the first stop
    observation or to the end of the sheet.
- The `keyboard_listener` thread and the global `stop_automation` are concurrency. They are
  modelled as a monotone sequence of flag observations: one per iteration, and one read by
  `finally`.
- A log entry is one write, not one physical line of `feedback.txt`. The name cell is stripped
  only at its ends, and `str(e)[:100]` (whatsapp.py:327) usually holds a newline, since a
  Selenium error renders as `Message: ...` followed by a stack trace on later lines. Such an
  entry spans several lines of the file. Automation.RunLinesReadBack reads entries back, not
  the lines a line-by-line reader of the file would see.
- File I/O is left out:
  - `read_excel_data`, `read_caption_template`, `display_data` and `main`;
  - the file-write error handlers;
  - the newline terminators (the log is a sequence of entries);
  - the timing of the writes (the header is written before the loop and the rest appended
    during it; the model returns the final content).
- `datetime.now()` timestamps are string parameters. All `print` output is left out.
- pandas coercions are left out. Every cell is already a string, and column names are distinct
  strings.
  - The row index is assumed to be a RangeIndex, so `index + 1` is the row's position plus one.
  - `row.get(name_column, phone)` always finds the detected name column, which is one of the
    columns.
- Text.IsDigit and Text.LowerChar cover ASCII only. `str.isdigit` and `str.lower` on other
  Unicode characters are not modelled. `str.isspace` is modelled on Python's full set of
  whitespace characters.
- Automation.ProcessContacts requires at least one column when there are rows. A sheet with
  rows but no columns makes the source raise at `df.columns[0]`, and that path is not
  modelled.
- `df is None` is not modelled; a table is always given.
