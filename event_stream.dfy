/**
 * The progress channel: events in the `text/event-stream` format of section
 * 9.2 of the WHATWG HTML Living Standard. Every event the tool yields is one
 * `data:` line followed by a blank line. `Decode` reads back the subset of
 * the format the tool writes (LF line ends, a single `data` field per event),
 * so that the stream can be checked to carry exactly the intended messages.
 */
module EventStream {
  import opened Wrappers
  import opened Text

  const DataField := "data: "
  const ProcessingPrefix := "Processing "
  const Complete := "COMPLETE"
  const NoEmailFile := "ERROR - No email file found"

  /** `f"data: {payload}\n\n"`. */
  function SseEvent(payload: string): string {
    DataField + payload + "\n\n"
  }

  /** One event per payload, in order. */
  function Events(payloads: seq<string>): seq<string> {
    seq(|payloads|, k requires 0 <= k < |payloads| => SseEvent(payloads[k]))
  }

  /** Yielding one more event appends it to the stream. */
  lemma EventsAppend(payloads: seq<string>, payload: string)
    ensures Events(payloads + [payload]) == Events(payloads) + [SseEvent(payload)]
  {
  }

  /** Index of the first line feed of `s`, or `|s|` when there is none. */
  function LineEnd(s: string): (n: nat)
    ensures n <= |s|
    ensures forall i :: 0 <= i < n ==> s[i] != '\n'
    ensures n < |s| ==> s[n] == '\n'
  {
    if s == [] || s[0] == '\n' then 0 else 1 + LineEnd(s[1..])
  }

  /** The data of each event of a stream made of `data: …` lines each followed by a
      blank line; `None` for any other text. */
  function Decode(s: string): Option<seq<string>>
    decreases |s|
  {
    if s == [] then Some([])
    else
      var n := LineEnd(s);
      if n + 1 < |s| && s[n + 1] == '\n' && StartsWith(s[..n], DataField) then
        match Decode(s[n + 2..])
        case None => None
        case Some(rest) => Some([s[|DataField|..n]] + rest)
      else None
  }

  lemma {:induction false} LineEndAt(a: string, b: string)
    requires '\n' !in a
    ensures LineEnd(a + ['\n'] + b) == |a|
  {
    if a != [] {
      assert (a + ['\n'] + b)[1..] == a[1..] + ['\n'] + b;
      LineEndAt(a[1..], b);
    }
  }

  /** A stream of events whose payloads are single lines decodes to exactly those
      payloads: one message per yielded event, none merged, none split. */
  lemma {:induction false} DecodeEvents(payloads: seq<string>)
    requires forall k :: 0 <= k < |payloads| ==> '\n' !in payloads[k]
    ensures Decode(Flatten(Events(payloads))) == Some(payloads)
  {
    if payloads != [] {
      var p := payloads[0];
      var rest := Flatten(Events(payloads[1..]));
      assert Events(payloads)[1..] == Events(payloads[1..]);
      var s := Flatten(Events(payloads));
      assert s == SseEvent(p) + rest;
      assert s == (DataField + p) + ['\n'] + (['\n'] + rest);
      LineEndAt(DataField + p, ['\n'] + rest);
      var n := |DataField| + |p|;
      assert s[..n] == DataField + p;
      assert s[n + 1] == '\n';
      assert s[n + 2..] == rest;
      assert s[|DataField|..n] == p;
      DecodeEvents(payloads[1..]);
      assert [p] + payloads[1..] == payloads;
    }
  }

  /** `f"Processing {index}/{total}"`. */
  function ProgressPayload(index: nat, total: nat): string {
    ProcessingPrefix + Decimal(index) + "/" + Decimal(total)
  }

  /** The two numbers of a progress message, if the text is one. */
  function ParseProgress(payload: string): Option<(nat, nat)> {
    if StartsWith(payload, ProcessingPrefix) then
      var parts := Split(payload[|ProcessingPrefix|..], '/');
      if |parts| == 2 && parts[0] != [] && parts[1] != [] && AllDigits(parts[0]) && AllDigits(parts[1])
      then Some((DecimalValue(parts[0]), DecimalValue(parts[1])))
      else None
    else None
  }

  /** A string of digits holds no character that is not a digit. */
  lemma DigitsExclude(s: string, c: char)
    requires AllDigits(s) && !IsDigit(c)
    ensures c !in s
  {
  }

  /** A progress message is a single line. */
  lemma ProgressSingleLine(index: nat, total: nat)
    ensures '\n' !in ProgressPayload(index, total) && '\r' !in ProgressPayload(index, total)
  {
  }

  /** A progress message reads back as the index and total it was written with. */
  lemma {:induction false} ProgressRoundTrip(index: nat, total: nat)
    ensures ParseProgress(ProgressPayload(index, total)) == Some((index, total))
  {
    var a, b := Decimal(index), Decimal(total);
    var p := ProgressPayload(index, total);
    assert p[|ProcessingPrefix|..] == a + ['/'] + b;
    DigitsExclude(a, '/');
    DigitsExclude(b, '/');
    SplitAfterFirst(a, '/', b);
    SplitAbsent(b, '/');
    DecimalRoundTrip(index);
    DecimalRoundTrip(total);
  }

  /** "Processing 1/total" … "Processing total/total". */
  function ProgressPayloads(total: nat): seq<string> {
    seq(total, k requires 0 <= k < total => ProgressPayload(k + 1, total))
  }

  /** The progress messages sent so far grow by the next one. */
  lemma ProgressPayloadsNext(total: nat, count: nat)
    requires count < total
    ensures ProgressPayloads(total)[..count + 1] == ProgressPayloads(total)[..count] + [ProgressPayload(count + 1, total)]
  {
  }

  /** The messages of a batch that runs to its end. */
  function CompletedPayloads(total: nat): seq<string> {
    ProgressPayloads(total) + [Complete]
  }

  /** Any prefix of the progress messages goes over the wire as exactly those messages. */
  lemma ProgressPrefixDecodes(total: nat, count: nat)
    requires count <= total
    ensures Decode(Flatten(Events(ProgressPayloads(total)[..count]))) == Some(ProgressPayloads(total)[..count])
    ensures forall k :: 0 <= k < count ==> ParseProgress(ProgressPayloads(total)[k]) == Some((k + 1, total))
  {
    var ps := ProgressPayloads(total)[..count];
    forall k | 0 <= k < count ensures '\n' !in ps[k] && ParseProgress(ProgressPayloads(total)[k]) == Some((k + 1, total)) {
      ProgressSingleLine(k + 1, total);
      ProgressRoundTrip(k + 1, total);
    }
    DecodeEvents(ps);
  }

  /** A completed batch's stream decodes to `total` progress messages counting
      1, 2, …, total, then one "COMPLETE", which is not a progress message. */
  lemma CompletedStream(total: nat)
    ensures Decode(Flatten(Events(CompletedPayloads(total)))) == Some(CompletedPayloads(total))
    ensures |CompletedPayloads(total)| == total + 1
    ensures forall k :: 0 <= k < total ==> ParseProgress(CompletedPayloads(total)[k]) == Some((k + 1, total))
    ensures CompletedPayloads(total)[total] == Complete && ParseProgress(Complete) == None
  {
    var ps := CompletedPayloads(total);
    forall k | 0 <= k < total ensures '\n' !in ps[k] && ParseProgress(ps[k]) == Some((k + 1, total)) {
      ProgressSingleLine(k + 1, total);
      ProgressRoundTrip(k + 1, total);
    }
    assert '\n' !in ps[total];
    DecodeEvents(ps);
  }
}
