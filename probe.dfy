/**
  The probe executor (monitor.py `check_urls`): one HTTP GET per URL, in
  order; a response with status 400 or more, or a transport error, becomes a
  failure record, and any other response leaves no record.

  The HTTP client is the parameter `fetch`, which gives the outcome of the
  request for a URL; `urllib.parse.urlparse(url).netloc` is the parameter
  `netloc`.
 */
module Probe {
  import opened Wrappers
  import opened Text

  /** The lowest HTTP status counted as a failure. */
  const FailureStatus := 400

  /** What one request gives: a response, or the exception the client raised
      (its class name and message). Elapsed times are whole milliseconds. */
  datatype Outcome =
    | Response(status: int, elapsedMs: int)
    | TransportError(kind: string, message: string, elapsedMs: int)

  /** A failure record: the dictionary `check_urls` appends. */
  datatype Failure = Failure(
    url: string,
    host: string,
    statusCode: Option<int>,
    error: Option<string>,
    elapsedMs: int)

  predicate IsHealthy(o: Outcome) {
    o.Response? && o.status < FailureStatus
  }

  /** Every record carries exactly one of a failing status and a non-empty
      error description. */
  predicate WellFormed(f: Failure) {
    || (f.statusCode.Some? && f.statusCode.value >= FailureStatus && f.error.None?)
    || (f.statusCode.None? && f.error.Some? && f.error.value != [])
  }

  /** The host reported for a transport error: the parsed network location
      when the URL has a scheme separator, the raw URL otherwise. */
  function TransportHost(url: string, netloc: string -> string): string {
    if Contains(url, "://") then netloc(url) else url
  }

  /** The record, if any, that one URL and its outcome give. */
  function Classify(url: string, outcome: Outcome, netloc: string -> string): (r: Option<Failure>)
    ensures r.None? <==> IsHealthy(outcome)
    ensures r.Some? ==> r.value.url == url && r.value.elapsedMs == outcome.elapsedMs && WellFormed(r.value)
    ensures r.Some? ==> (r.value.statusCode.Some? <==> outcome.Response?)
  {
    match outcome
    case Response(status, ms) =>
      if status >= FailureStatus then Some(Failure(url, netloc(url), Some(status), None, ms)) else None
    case TransportError(kind, message, ms) =>
      Some(Failure(url, TransportHost(url, netloc), None, Some(kind + ": " + message), ms))
  }

  /** What a record says about its outcome: the status of a failing
      response, or the error text `Kind: message` and a host that is the URL
      itself exactly when `://` does not occur in it. */
  lemma ClassifyRecord(url: string, outcome: Outcome, netloc: string -> string)
    requires !IsHealthy(outcome)
    ensures var f := Classify(url, outcome, netloc).value;
      match outcome
      case Response(status, _) =>
        f.statusCode == Some(status) && f.error.None? && f.host == netloc(url)
      case TransportError(kind, message, _) =>
        f.statusCode.None? && f.error == Some(kind + ": " + message)
        && f.host == (if exists i: nat :: OccursAt(url, "://", i) then netloc(url) else url)
  {
    ContainsIff(url, "://");
  }

  /** The records for `urls`, in order. */
  function FailuresOf(urls: seq<string>, fetch: string -> Outcome, netloc: string -> string): (failures: seq<Failure>)
    ensures |failures| <= |urls|
    ensures forall k :: 0 <= k < |failures| ==> WellFormed(failures[k]) && failures[k].url in urls
  {
    if urls == [] then []
    else
      var url := urls[|urls| - 1];
      FailuresOf(urls[..|urls| - 1], fetch, netloc) + OptionToSeq(Classify(url, fetch(url), netloc))
  }

  /** Probing two lists one after the other gives the records of each, in
      that order. */
  lemma {:induction false} FailuresOfConcat(a: seq<string>, b: seq<string>, fetch: string -> Outcome, netloc: string -> string)
    ensures FailuresOf(a + b, fetch, netloc) == FailuresOf(a, fetch, netloc) + FailuresOf(b, fetch, netloc)
  {
    if b == [] {
      assert a + b == a;
    } else {
      var b' := b[..|b| - 1];
      assert (a + b)[..|a + b| - 1] == a + b';
      assert (a + b)[|a + b| - 1] == b[|b| - 1];
      FailuresOfConcat(a, b', fetch, netloc);
    }
  }

  /** The URLs whose probe fails, in input order. */
  function FailingUrls(urls: seq<string>, fetch: string -> Outcome): (failing: seq<string>)
    ensures |failing| <= |urls|
    ensures forall k :: 0 <= k < |failing| ==> !IsHealthy(fetch(failing[k])) && failing[k] in urls
  {
    if urls == [] then []
    else (if IsHealthy(fetch(urls[0])) then [] else [urls[0]]) + FailingUrls(urls[1..], fetch)
  }

  /** One record per failing URL, in input order, and none for a healthy
      one: the k-th record belongs to the k-th failing URL. */
  lemma {:induction false} FailuresMatchFailingUrls(urls: seq<string>, fetch: string -> Outcome, netloc: string -> string)
    ensures MatchesFailing(FailuresOf(urls, fetch, netloc), FailingUrls(urls, fetch), fetch, netloc)
  {
    if urls != [] {
      FailuresMatchFailingUrls(urls[1..], fetch, netloc);
      FailuresMatchStep(urls, fetch, netloc);
    }
  }

  /** Probing the first URL, then the others. */
  lemma FailuresOfFirst(urls: seq<string>, fetch: string -> Outcome, netloc: string -> string)
    requires urls != []
    ensures FailuresOf(urls, fetch, netloc)
         == OptionToSeq(Classify(urls[0], fetch(urls[0]), netloc)) + FailuresOf(urls[1..], fetch, netloc)
  {
    FailuresOfOne(urls[0], fetch, netloc);
    FailuresOfConcat([urls[0]], urls[1..], fetch, netloc);
    assert [urls[0]] + urls[1..] == urls;
  }

  /** Probing a single URL gives its record, if any. */
  lemma FailuresOfOne(url: string, fetch: string -> Outcome, netloc: string -> string)
    ensures FailuresOf([url], fetch, netloc) == OptionToSeq(Classify(url, fetch(url), netloc))
  {
    assert [url][..0] == [];
  }

  /** `failures` holds, in order, the record of each URL of `failing`. */
  ghost predicate MatchesFailing(failures: seq<Failure>, failing: seq<string>, fetch: string -> Outcome, netloc: string -> string) {
    |failures| == |failing|
    && forall k :: 0 <= k < |failures| ==> Some(failures[k]) == Classify(failing[k], fetch(failing[k]), netloc)
  }

  /** The inductive step of `FailuresMatchFailingUrls`: the first URL, then the rest. */
  lemma FailuresMatchStep(urls: seq<string>, fetch: string -> Outcome, netloc: string -> string)
    requires urls != []
    requires MatchesFailing(FailuresOf(urls[1..], fetch, netloc), FailingUrls(urls[1..], fetch), fetch, netloc)
    ensures MatchesFailing(FailuresOf(urls, fetch, netloc), FailingUrls(urls, fetch), fetch, netloc)
  {
    var rest := urls[1..];
    var first := Classify(urls[0], fetch(urls[0]), netloc);
    var failures, failing := FailuresOf(urls, fetch, netloc), FailingUrls(urls, fetch);
    var restFailures, restFailing := FailuresOf(rest, fetch, netloc), FailingUrls(rest, fetch);
    FailuresOfFirst(urls, fetch, netloc);
    if first.Some? {
      assert failing == [urls[0]] + restFailing;
      MatchesFailingCons(first.value, urls[0], restFailures, restFailing, fetch, netloc);
    }
  }

  /** A failing URL's record in front of matching records still matches. */
  lemma MatchesFailingCons(f: Failure, url: string, failures: seq<Failure>, failing: seq<string>,
                           fetch: string -> Outcome, netloc: string -> string)
    requires Some(f) == Classify(url, fetch(url), netloc)
    requires MatchesFailing(failures, failing, fetch, netloc)
    ensures MatchesFailing([f] + failures, [url] + failing, fetch, netloc)
  {
    forall k | 0 <= k < 1 + |failures|
      ensures Some(([f] + failures)[k]) == Classify(([url] + failing)[k], fetch(([url] + failing)[k]), netloc)
    {
      if k > 0 {
        assert ([f] + failures)[k] == failures[k - 1] && ([url] + failing)[k] == failing[k - 1];
      }
    }
  }

  /** No record at all exactly when every URL answered with a status below
      400: silence on success, and only on success. */
  lemma {:induction false} NoFailuresIffAllHealthy(urls: seq<string>, fetch: string -> Outcome, netloc: string -> string)
    ensures FailuresOf(urls, fetch, netloc) == [] <==> forall k :: 0 <= k < |urls| ==> IsHealthy(fetch(urls[k]))
  {
    if urls != [] {
      var init := urls[..|urls| - 1];
      NoFailuresIffAllHealthy(init, fetch, netloc);
      if forall k :: 0 <= k < |urls| ==> IsHealthy(fetch(urls[k])) {
        assert forall k :: 0 <= k < |init| ==> IsHealthy(fetch(init[k])) by {
          forall k | 0 <= k < |init| ensures IsHealthy(fetch(init[k])) { assert init[k] == urls[k]; }
        }
      }
      if FailuresOf(urls, fetch, netloc) == [] {
        forall k | 0 <= k < |urls| ensures IsHealthy(fetch(urls[k])) {
          if k < |init| { assert init[k] == urls[k]; }
        }
      }
    }
  }

  /** When every probe fails, there is one record per URL, in the same order. */
  lemma {:induction false} FailuresWhenAllFail(urls: seq<string>, fetch: string -> Outcome, netloc: string -> string)
    requires forall k :: 0 <= k < |urls| ==> !IsHealthy(fetch(urls[k]))
    ensures var failures := FailuresOf(urls, fetch, netloc);
      |failures| == |urls|
      && forall k :: 0 <= k < |urls| ==> Some(failures[k]) == Classify(urls[k], fetch(urls[k]), netloc)
  {
    if urls != [] {
      var init := urls[..|urls| - 1];
      FailuresWhenAllFail(init, fetch, netloc);
    }
  }

  /** `check_urls(urls)`: probes the URLs one by one and collects the
      records, which are exactly those of `FailuresOf`. */
  method CheckUrls(urls: seq<string>, fetch: string -> Outcome, netloc: string -> string)
    returns (failures: seq<Failure>)
    ensures failures == FailuresOf(urls, fetch, netloc)
  {
    failures := [];
    for i := 0 to |urls|
      invariant failures == FailuresOf(urls[..i], fetch, netloc)
    {
      var url := urls[i];
      assert urls[..i + 1][..i] == urls[..i];
      var record := Classify(url, fetch(url), netloc);
      if record.Some? {
        failures := failures + [record.value];
      }
    }
    assert urls[..|urls|] == urls;
  }
}
