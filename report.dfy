/**
  The failure reporter (monitor.py `_as_reason` and
  `notify_discord_on_failures`): nothing is sent when there is no failure;
  otherwise one alert goes to the webhook, with one detail field for each of
  the first 20 failures and, past 20, one field counting the rest.

  The Discord embed is modelled by its logical content (a `Message` value)
  and the webhook by a `Sink` object that logs what it is sent.
 */
module Report {
  import opened Wrappers
  import opened Text
  import opened Probe

  /** The most failures shown in detail in one alert. */
  const MaxItems := 20

  /** The embed's colour (red). */
  const AlertColor := 0xE74C3C

  datatype Field = Field(name: string, value: string, inline: bool)

  datatype Embed = Embed(
    title: string,
    description: string,
    color: int,
    fields: seq<Field>,
    footer: string)

  /** One webhook call: the plain-text content, the embed, and whether the
      allowed mentions include `@everyone`/`@here`. */
  datatype Message = Message(content: string, embed: Embed, mentionEveryone: bool)

  function Min(a: int, b: int): int {
    if a <= b then a else b
  }

  /** `_as_reason(item)`: the error text when it is present and non-empty,
      else `HTTP <status>` when there is a status, else `Unknown error`. */
  function Reason(f: Failure): (r: string)
    ensures r != []
  {
    if f.error.Some? && f.error.value != [] then f.error.value
    else if f.statusCode.Some? then "HTTP " + IntToDecimal(f.statusCode.value)
    else "Unknown error"
  }

  /** The reason shown for a probe's record repeats its error text, or names
      its status so that the status reads back from it; the `Unknown error`
      fallback is never reached by a record that `check_urls` makes. */
  lemma ReasonOfRecord(url: string, outcome: Outcome, netloc: string -> string)
    requires !IsHealthy(outcome)
    ensures var r := Reason(Classify(url, outcome, netloc).value);
      && r != "Unknown error"
      && match outcome
         case Response(status, _) =>
           r == "HTTP " + IntToDecimal(status) && SignedDecimalValue(r[5..]) == status
         case TransportError(kind, message, _) =>
           r == kind + ": " + message
  {
    var r := Reason(Classify(url, outcome, netloc).value);
    match outcome
    case Response(status, _) =>
      assert r[5..] == IntToDecimal(status);
      IntToDecimalRoundTrip(status);
      assert r[0] == 'H';
    case TransportError(kind, message, _) =>
      assert r[|kind|] == ':';
  }

  /** An empty error text counts as no error, so the status decides; with
      neither, the fallback text is used. */
  lemma ReasonFallsThrough(f: Failure)
    requires f.error.None? || f.error == Some([])
    ensures f.statusCode.Some? ==> Reason(f) == "HTTP " + IntToDecimal(f.statusCode.value)
    ensures f.statusCode.None? ==> Reason(f) == "Unknown error"
  {
  }

  /** The detail field of one failure: the host in its name; the URL, the
      reason and the latency in its value. */
  function DetailField(f: Failure): Field {
    Field(
      "\U{274C} " + f.host,
      f.url + "\n\U{2022} **Reason:** " + Reason(f) + "\n\U{2022} **Latency:** " + (IntToDecimal(f.elapsedMs) + " ms"),
      false)
  }

  /** `DetailField` of each failure, in order. */
  function DetailFields(failures: seq<Failure>): seq<Field> {
    seq(|failures|, i requires 0 <= i < |failures| => DetailField(failures[i]))
  }

  /** The last field of an alert with more than `MaxItems` failures. */
  function OverflowField(remaining: nat): Field {
    Field("\U{2026}and more", NatToDecimal(remaining) + " additional failures not shown.", false)
  }

  /** The alert's fields: one detail field for each of the first `MaxItems`
      failures, in order, then an overflow field exactly when there are more
      failures than that, so never more than `MaxItems + 1` fields. */
  function AlertFields(failures: seq<Failure>): (fields: seq<Field>)
    ensures |fields| == Min(|failures|, MaxItems) + (if |failures| > MaxItems then 1 else 0)
    ensures |fields| <= MaxItems + 1
    ensures forall k :: 0 <= k < Min(|failures|, MaxItems) ==> fields[k] == DetailField(failures[k])
    ensures |failures| > MaxItems <==> |fields| == MaxItems + 1
    ensures |failures| > MaxItems ==> fields[MaxItems] == OverflowField(|failures| - MaxItems)
  {
    var shown := failures[..Min(|failures|, MaxItems)];
    var remaining := |failures| - MaxItems;
    DetailFields(shown) + (if remaining > 0 then [OverflowField(remaining)] else [])
  }

  /** The overflow field's count reads back as the number of failures left
      out of the detail fields. */
  lemma OverflowCountReadsBack(failures: seq<Failure>)
    requires |failures| > MaxItems
    ensures var v := AlertFields(failures)[MaxItems].value;
      var digits := NatToDecimal(|failures| - MaxItems);
      && v == digits + " additional failures not shown."
      && DecimalValue(v[..|digits|]) == |failures| - MaxItems
  {
    var digits := NatToDecimal(|failures| - MaxItems);
    var v := AlertFields(failures)[MaxItems].value;
    assert v[..|digits|] == digits;
    NatToDecimalRoundTrip(|failures| - MaxItems);
  }

  /** `platform.node() or socket.gethostname()`. */
  function HostName(node: string, socketHostName: string): string {
    if node != [] then node else socketHostName
  }

  /** The embed's summary line: failed/total, the environment label, the
      host and the formatted time. */
  function Description(failed: nat, totalUrls: int, envName: string, hostname: string, now: string): string {
    "**" + NatToDecimal(failed) + "/" + IntToDecimal(totalUrls) + "** endpoints failing in **" + envName + "**.\n"
      + "Host: `" + hostname + "` \U{B7} " + now + " UTC"
  }

  /** The one message sent for a non-empty failure list. */
  function AlertMessage(failures: seq<Failure>, totalUrls: int, envName: string, hostname: string, now: string): Message {
    Alert(Description(|failures|, totalUrls, envName, hostname, now), AlertFields(failures))
  }

  /** The alert around a description and its fields: the `@here` mention
      with everyone allowed, the fixed title, colour and footer. */
  function Alert(description: string, fields: seq<Field>): Message {
    Message(
      "@here",
      Embed("\U{1F6A8} URL Health Check: FAIL", description, AlertColor, fields, "Immediate attention required"),
      true)
  }

  /** The webhook, seen as the log of the messages it has been sent. */
  class Sink {
    var sent: seq<Message>

    constructor ()
      ensures sent == []
    {
      sent := [];
    }

    /** `hook.send(...)`: one outbound call, logged. */
    method Send(m: Message)
      modifies this
      ensures sent == old(sent) + [m]
    {
      sent := sent + [m];
    }
  }

  /** `notify_discord_on_failures(failures, total_urls)`: silent for an
      empty failure list, otherwise exactly one message, the alert. The
      environment label, the two host names and the formatted current time
      are parameters. */
  method NotifyOnFailures(
    sink: Sink, failures: seq<Failure>, totalUrls: int,
    envName: string, node: string, socketHostName: string, now: string)
    modifies sink
    ensures failures == [] ==> sink.sent == old(sink.sent)
    ensures failures != [] ==>
      sink.sent == old(sink.sent) + [AlertMessage(failures, totalUrls, envName, HostName(node, socketHostName), now)]
  {
    if failures == [] {
      return;
    }
    var description := Description(|failures|, totalUrls, envName, HostName(node, socketHostName), now);
    var fields := AlertFieldsOf(failures);
    sink.Send(Alert(description, fields));
  }

  /** The field-building loop of `notify_discord_on_failures()`: one detail
      field for each of the first `MaxItems` failures, then the overflow
      field when some are left out. */
  method AlertFieldsOf(failures: seq<Failure>) returns (fields: seq<Field>)
    ensures fields == AlertFields(failures)
  {
    var shown := failures[..Min(|failures|, MaxItems)];
    fields := [];
    for i := 0 to |shown|
      invariant |fields| == i
      invariant forall k :: 0 <= k < i ==> fields[k] == DetailField(shown[k])
    {
      fields := fields + [DetailField(shown[i])];
    }

    assert fields == DetailFields(shown);

    var remaining := |failures| - MaxItems;
    if remaining > 0 {
      fields := fields + [OverflowField(remaining)];
    }
  }
}
