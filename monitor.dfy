/**
  One run of monitor.py (its `__main__` block): resolve the URLs, probe them,
  report the failures against the number of URLs probed.
 */
module Monitor {
  import opened Wrappers
  import opened Text
  import opened UrlSource
  import opened Probe
  import opened Report

  /** A run: the URL list, the records and what the webhook receives, with
      the configuration, the file, the network and the clock as parameters. */
  method Run(
    sink: Sink, blob: string, file: Option<seq<string>>,
    fetch: string -> Outcome, netloc: string -> string,
    envName: string, node: string, socketHostName: string, now: string)
    returns (urls: seq<string>, failures: seq<Failure>)
    modifies sink
    ensures ParseBlob(blob) != [] ==> urls == ParseBlob(blob)
    ensures ParseBlob(blob) == [] ==> urls == if file.Some? then FileUrls(file.value) else []
    ensures failures == FailuresOf(urls, fetch, netloc)
    ensures sink.sent == old(sink.sent)
      + if failures == [] then [] else [AlertMessage(failures, |urls|, envName, HostName(node, socketHostName), now)]
  {
    urls := LoadUrls(blob, file);
    failures := CheckUrls(urls, fetch, netloc);
    NotifyOnFailures(sink, failures, |urls|, envName, node, socketHostName, now);
  }

  /** Two URLs in a comma-and-space separated blob, the first answering 200
      and the second refusing the connection: one record, for the second,
      carrying the error and no status, and a one-field alert. */
  lemma OneUpOneDown(up: string, down: string, fetch: string -> Outcome, netloc: string -> string)
    requires IsUrlEntry(up) && NoSeparator(up) && IsUrlEntry(down) && NoSeparator(down)
    requires fetch(up).Response? && fetch(up).status == 200
    requires fetch(down).TransportError?
    ensures var urls := ParseBlob(up + ", " + down);
      var failures := FailuresOf(urls, fetch, netloc);
      && urls == [up, down]
      && failures == [Classify(down, fetch(down), netloc).value]
      && failures[0].url == down && failures[0].statusCode.None? && failures[0].error.Some?
      && |AlertFields(failures)| == 1
  {
    var seps := ", ";
    assert IsSeparator(seps[0]) && IsSeparator(seps[1]);
    TwoUrls(up, seps, down);
    var urls := [up, down];
    assert urls[..1] == [up] && urls[..1][..0] == [];
  }

  // The three lemmas below only evaluate literals for `OneUpOneDownBlob`;
  // each is kept small because the solver expands every character.

  /** For `OneUpOneDownBlob`: the first URL is a single URL token. */
  lemma OkUrlWellFormed()
    ensures IsUrlEntry("https://ok.example.com") && NoSeparator("https://ok.example.com")
  {
  }

  /** For `OneUpOneDownBlob`: the second URL is a single URL token. */
  lemma DownUrlWellFormed()
    ensures IsUrlEntry("https://down.example.com") && NoSeparator("https://down.example.com")
  {
  }

  /** For `OneUpOneDownBlob`: the blob is the two URLs around `", "`, and
      both of its characters are separators. */
  lemma ExampleBlobShape()
    ensures "https://ok.example.com, https://down.example.com"
         == "https://ok.example.com" + ", " + "https://down.example.com"
    ensures forall i :: 0 <= i < |", "| ==> IsSeparator(", "[i])
  {
  }

  /** The blob `https://ok.example.com, https://down.example.com` names the
      two URLs, in that order. */
  lemma OneUpOneDownBlob()
    ensures ParseBlob("https://ok.example.com, https://down.example.com")
         == ["https://ok.example.com", "https://down.example.com"]
  {
    OkUrlWellFormed();
    DownUrlWellFormed();
    ExampleBlobShape();
    TwoUrls("https://ok.example.com", ", ", "https://down.example.com");
  }

  // The two lemmas below only evaluate literals for `TwentyFiveServerErrors`.

  /** For `TwentyFiveServerErrors`: the reason text of status 500. */
  lemma HttpFiveHundred()
    ensures "HTTP " + IntToDecimal(500) == "HTTP 500"
  {
    assert NatToDecimal(500) == NatToDecimal(50) + "0";
    assert NatToDecimal(50) == "50";
  }

  /** For `TwentyFiveServerErrors`: the overflow text for five left-out failures. */
  lemma FiveNotShown()
    ensures OverflowField(5).value == "5" + " additional failures not shown."
  {
    assert NatToDecimal(5) == "5";
  }

  /** Twenty-five URLs all answering 500: twenty detail fields each giving
      `HTTP 500`, then one field reading `5 additional failures not shown.` */
  lemma TwentyFiveServerErrors(urls: seq<string>, fetch: string -> Outcome, netloc: string -> string)
    requires |urls| == 25
    requires forall k :: 0 <= k < |urls| ==> fetch(urls[k]).Response? && fetch(urls[k]).status == 500
    ensures var failures := FailuresOf(urls, fetch, netloc);
      var fields := AlertFields(failures);
      && |failures| == 25
      && |fields| == 21
      && (forall k :: 0 <= k < 20 ==> fields[k] == DetailField(failures[k]) && Reason(failures[k]) == "HTTP 500")
      && fields[20].value == "5" + " additional failures not shown."
  {
    FailuresWhenAllFail(urls, fetch, netloc);
    var failures := FailuresOf(urls, fetch, netloc);
    HttpFiveHundred();
    FiveNotShown();
    forall k | 0 <= k < 20 ensures Reason(failures[k]) == "HTTP 500" {
      assert Some(failures[k]) == Classify(urls[k], fetch(urls[k]), netloc);
    }
  }
}
