/**
 * The batch drivers of the three revisions: reading the email list from the
 * uploaded lines, one lookup per email, the report rows and the progress
 * stream. The spreadsheet itself is not modelled: a report is the sequence of
 * rows handed to the spreadsheet writer.
 */
module Batch {
  import opened Wrappers
  import opened Text
  import opened Directory
  import opened EventStream

  /** `[line.strip() for line in lines if line.strip()]`: the stripped non-blank lines, in order. */
  function KeptEmails(lines: seq<string>): (emails: seq<string>)
    decreases |lines|
    ensures |emails| <= |lines|
  {
    if lines == [] then []
    else
      var stripped := Strip(lines[0]);
      (if stripped != "" then [stripped] else []) + KeptEmails(lines[1..])
  }

  /** Every kept email is non-empty and already stripped. */
  lemma {:induction false} KeptEmailsStripped(lines: seq<string>, k: nat)
    requires k < |KeptEmails(lines)|
    ensures KeptEmails(lines)[k] != "" && Strip(KeptEmails(lines)[k]) == KeptEmails(lines)[k]
  {
    var stripped := Strip(lines[0]);
    if stripped != "" && k == 0 {
      StripIdempotent(lines[0]);
    } else {
      KeptEmailsStripped(lines[1..], if stripped != "" then k - 1 else k);
    }
  }

  /** Keeping distributes over concatenation: the emails keep the order of their lines. */
  lemma {:induction false} KeptEmailsAppend(a: seq<string>, b: seq<string>)
    ensures KeptEmails(a + b) == KeptEmails(a) + KeptEmails(b)
  {
    if a != [] {
      assert (a + b)[0] == a[0];
      assert (a + b)[1..] == a[1..] + b;
      KeptEmailsAppend(a[1..], b);
    } else {
      assert a + b == b;
    }
  }

  /** A blank or whitespace-only line contributes nothing; any other line
      contributes exactly its stripped text. */
  lemma KeptEmailsOfLine(line: string)
    ensures KeptEmails([line]) == if Strip(line) == "" then [] else [Strip(line)]
  {
  }

  /** Without blank lines, there is one email per line, in order. */
  lemma {:induction false} KeptEmailsNoBlank(lines: seq<string>)
    requires forall k :: 0 <= k < |lines| ==> Strip(lines[k]) != ""
    ensures |KeptEmails(lines)| == |lines|
    ensures forall k :: 0 <= k < |lines| ==> KeptEmails(lines)[k] == Strip(lines[k])
  {
    if lines != [] {
      KeptEmailsNoBlank(lines[1..]);
      assert forall k :: 1 <= k < |lines| ==> lines[k] == lines[1..][k - 1];
    }
  }

  // ---------------------------------------------------------------------------
  // The streaming revision with a worker pool.

  /**
   * `generate_progress` with the email file read as its lines (`None` when the
   * file does not exist). All lookups are submitted to the pool at once and
   * their results are consumed in submission order, so the report follows the
   * input order whichever worker finishes first. `None` for the report means
   * no spreadsheet is written.
   */
  method GenerateProgressPooled(emailFile: Option<seq<string>>, credentials: Credentials, directory: Directory)
    returns (events: seq<string>, report: Option<seq<Row>>)
    ensures emailFile.None? ==> events == [SseEvent(NoEmailFile)] && report.None?
    ensures emailFile.Some? ==>
      var emails := KeptEmails(emailFile.value);
      && events == Events(CompletedPayloads(|emails|))
      && report.Some? && |report.value| == |emails|
      && forall k :: 0 <= k < |emails| ==>
           report.value[k].email == emails[k] && report.value[k] == SearchAd(emails[k], credentials, directory)
  {
    if emailFile.None? {
      events := [SseEvent(NoEmailFile)];
      report := None;
      return;
    }
    var emails := KeptEmails(emailFile.value);
    var total := |emails|;
    var futures := seq(total, k requires 0 <= k < total => SearchAd(emails[k], credentials, directory));
    var results: seq<Row> := [];
    events := [];
    var index := 1;
    while index <= total
      invariant 1 <= index <= total + 1
      invariant results == futures[..index - 1]
      invariant events == Events(ProgressPayloads(total)[..index - 1])
    {
      ProgressPayloadsNext(total, index - 1);
      EventsAppend(ProgressPayloads(total)[..index - 1], ProgressPayload(index, total));
      results := results + [futures[index - 1]];
      events := events + [SseEvent(ProgressPayload(index, total))];
      index := index + 1;
    }
    assert ProgressPayloads(total)[..total] == ProgressPayloads(total);
    EventsAppend(ProgressPayloads(total), Complete);
    events := events + [SseEvent(Complete)];
    report := Some(results);
  }

  // ---------------------------------------------------------------------------
  // The first two revisions: a lookup that raises ends the batch.

  /** The position of the first email whose lookup raises, or the number of
      emails when none does. */
  function FirstFailure(emails: seq<string>, credentials: Credentials, auth: Auth, directory: Directory): (k: nat)
    decreases |emails|
    ensures k <= |emails|
    ensures forall j :: 0 <= j < k ==> SearchAdBasic(emails[j], credentials, auth, directory).Success?
    ensures k < |emails| ==> SearchAdBasic(emails[k], credentials, auth, directory).Failure?
  {
    if emails == [] then 0
    else if SearchAdBasic(emails[0], credentials, auth, directory).Failure? then 0
    else 1 + FirstFailure(emails[1..], credentials, auth, directory)
  }

  /** `rows` holds, for each email in order, the record built from its successful lookup. */
  predicate RowsFor(rows: seq<Row>, emails: seq<string>, credentials: Credentials, auth: Auth, directory: Directory) {
    && |rows| == |emails|
    && forall k :: 0 <= k < |rows| ==>
         var info := SearchAdBasic(emails[k], credentials, auth, directory);
         info.Success? && rows[k] == RowFromInfo(emails[k], info.value)
  }

  /** One more successful lookup extends the rows by its record. */
  lemma RowsForAppend(rows: seq<Row>, emails: seq<string>, email: string,
                      credentials: Credentials, auth: Auth, directory: Directory)
    requires RowsFor(rows, emails, credentials, auth, directory)
    requires SearchAdBasic(email, credentials, auth, directory).Success?
    ensures RowsFor(rows + [RowFromInfo(email, SearchAdBasic(email, credentials, auth, directory).value)],
                    emails + [email], credentials, auth, directory)
  {
  }

  /**
   * `generate_progress` of the sequential streaming revision. Each lookup is
   * followed by one progress event. A lookup that raises leaves the generator:
   * the stream ends after the events already sent, with no "COMPLETE", and the
   * downloadable report is not replaced (`None`).
   */
  method GenerateProgressSequential(emails: seq<string>, credentials: Credentials, directory: Directory)
    returns (events: seq<string>, output: Option<seq<Row>>)
    ensures var failed := FirstFailure(emails, credentials, Ntlm, directory);
      && (failed == |emails| ==>
            events == Events(CompletedPayloads(|emails|))
            && output.Some? && RowsFor(output.value, emails, credentials, Ntlm, directory))
      && (failed < |emails| ==>
            events == Events(ProgressPayloads(|emails|)[..failed]) && output.None?)
  {
    var total := |emails|;
    ghost var failed := FirstFailure(emails, credentials, Ntlm, directory);
    var results: seq<Row> := [];
    events := [];
    output := None;
    var index := 1;
    while index <= total
      invariant 1 <= index <= total + 1
      invariant index - 1 <= failed
      invariant RowsFor(results, emails[..index - 1], credentials, Ntlm, directory)
      invariant events == Events(ProgressPayloads(total)[..index - 1])
    {
      var userInfo := SearchAdBasic(emails[index - 1], credentials, Ntlm, directory);
      if userInfo.Failure? {
        assert failed == index - 1;
        return;
      }
      ProgressPayloadsNext(total, index - 1);
      EventsAppend(ProgressPayloads(total)[..index - 1], ProgressPayload(index, total));
      RowsForAppend(results, emails[..index - 1], emails[index - 1], credentials, Ntlm, directory);
      assert emails[..index] == emails[..index - 1] + [emails[index - 1]];
      results := results + [RowFromInfo(emails[index - 1], userInfo.value)];
      events := events + [SseEvent(ProgressPayload(index, total))];
      index := index + 1;
    }
    assert ProgressPayloads(total)[..total] == ProgressPayloads(total);
    assert emails[..total] == emails;
    EventsAppend(ProgressPayloads(total), Complete);
    events := events + [SseEvent(Complete)];
    output := Some(results);
  }

  /**
   * The upload handler of the first revision: keep the stripped non-blank
   * lines, look each one up with a simple bind, and build one row per email.
   * Nothing catches a failing lookup, so the first one aborts the request and
   * no spreadsheet is returned.
   */
  method ProcessUpload(lines: seq<string>, credentials: Credentials, directory: Directory)
    returns (outcome: Result<seq<Row>, string>)
    ensures var emails := KeptEmails(lines);
      var failed := FirstFailure(emails, credentials, SimpleBind, directory);
      && (outcome.Success? <==> failed == |emails|)
      && (outcome.Success? ==> RowsFor(outcome.value, emails, credentials, SimpleBind, directory))
      && (outcome.Failure? ==> outcome.error == SearchAdBasic(emails[failed], credentials, SimpleBind, directory).error)
  {
    var emails := KeptEmails(lines);
    ghost var failed := FirstFailure(emails, credentials, SimpleBind, directory);
    var results: seq<Row> := [];
    for i := 0 to |emails|
      invariant i <= failed
      invariant RowsFor(results, emails[..i], credentials, SimpleBind, directory)
    {
      var userInfo := SearchAdBasic(emails[i], credentials, SimpleBind, directory);
      if userInfo.Failure? {
        assert failed == i;
        return Failure(userInfo.error);
      }
      RowsForAppend(results, emails[..i], emails[i], credentials, SimpleBind, directory);
      assert emails[..i + 1] == emails[..i] + [emails[i]];
      results := results + [RowFromInfo(emails[i], userInfo.value)];
    }
    assert emails[..|emails|] == emails;
    outcome := Success(results);
  }

  /** A report row per email, in order, carrying that email; an email with no
      entry reads "Not Found" with every other field blank. */
  lemma RowsForInOrder(rows: seq<Row>, emails: seq<string>, credentials: Credentials, auth: Auth, directory: Directory, k: nat)
    requires RowsFor(rows, emails, credentials, auth, directory) && k < |rows|
    ensures rows[k].email == emails[k]
    ensures directory(credentials, auth, LdapFilter.MailFilter(emails[k])) == Found([]) ==>
      rows[k] == Row(emails[k], NotFound, "", "", "", None)
  {
  }
}
