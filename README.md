# uptime-to-discord monitor, modelled in Dafny

This project models the decision logic of `monitor.py`, a cron-run URL health
checker that sends one Discord alert, and only when some URL fails. A run
goes through four steps:

- **URL sources** (`url_source.dfy`). `_parse_urls_blob` reads the
  `HEALTHCHECK_URLS` blob: it splits on newlines, turns commas into spaces,
  splits on whitespace, strips each token, and drops empty tokens and tokens
  that start with `#`. `_load_urls` uses the blob's URLs when there are any.
  Otherwise it reads the URL file line by line. A missing file gives no URLs.
- **Probing** (`probe.dfy`). `check_urls` makes one GET per URL, in order.
  A response with status 400 or more becomes a record with a status and no
  error. A transport error becomes a record with an error and no status.
  Any other response leaves no record.
- **Reporting** (`report.dfy`). `_as_reason` picks the text shown for a
  record. `notify_discord_on_failures` sends nothing when there are no
  failures. Otherwise it sends exactly one message. That message has one
  detail field for each of the first 20 failures and, past 20, one field
  giving the number of failures not shown.
- **A run** (`monitor.dfy`). The `__main__` block runs the three steps in
  sequence and passes the number of URLs as the total.

Python's string operations that the script uses live in `text.dfy`: the
`str.isspace` character set, `strip()`, `split(sep)`, `split()`, the
substring test and `str(int)`. `wrappers.dfy` holds `Option`, which models
Python's `None`.

The environment is passed in as parameters:

- The HTTP client is `fetch: string -> Outcome`. An outcome is
  `Response(status, elapsedMs)` or `TransportError(kind, message, elapsedMs)`.
- `urllib.parse.urlparse(url).netloc` is `netloc: string -> string`.
- The URL file is `Option<seq<string>>`. It holds the lines Python would
  yield, and `None` stands for `FileNotFoundError`.
- The blob, `ENV_NAME`, `platform.node()`, `socket.gethostname()` and the
  formatted current time are strings.
- The webhook is a `Sink` object whose `sent` field logs every message it
  receives.

Two details of the code shape the model:

- The code always takes the latency from `response.elapsed` (monitor.py:56).
  It has no wall-clock fallback.
- A response with status 400 or more always reports `urlparse(url).netloc`
  as its host (monitor.py:64). The raw-URL fallback applies only to
  transport errors (monitor.py:74).

## Model

| member | source | states |
|---|---|---|
| `Text.Strip` | monitor.py:40 | `strip()` leaves no whitespace at either end and never makes a string longer |
| `Text.StripLeftSuffix` | monitor.py:40 | the left half of `strip()` drops only a run of leading whitespace and keeps the rest unchanged |
| `Text.StripRightPrefix` | monitor.py:40 | the right half of `strip()` drops only a run of trailing whitespace and keeps the rest unchanged |
| `Text.StripDecomposes` | monitor.py:40 | every string is whitespace, then its `strip()`, then whitespace: `strip()` removes only whitespace, and only at the ends |
| `Text.StripPadded` | monitor.py:40 | stripping any whitespace padding off a trimmed string gives back exactly that string (a characterisation of `strip()`) |
| `Text.StripNoSpace` | monitor.py:26 | `strip()` leaves a string without whitespace unchanged, so `p.strip()` on `split()` tokens changes nothing |
| `Text.StripIdempotent` | monitor.py:40 | stripping twice is stripping once |
| `Text.SplitOn` | monitor.py:26 | `split('\n')` returns at least one piece, and no piece holds a newline |
| `Text.SplitOnAt` | monitor.py:26 | splitting at one more separator splits the two sides independently |
| `Text.JoinSplit` | monitor.py:26 | joining the pieces of `split(sep)` with `sep` gives back the string |
| `Text.SplitJoin` | monitor.py:26 | splitting a join of separator-free pieces gives back the pieces |
| `Text.Words` | monitor.py:26 | `split()` returns non-empty, whitespace-free words whose characters come from the input |
| `Text.WordsAt` | monitor.py:26 | a whitespace character splits the words into those before it followed by those after it |
| `Text.WordsAfterSpaces` | monitor.py:26 | leading whitespace does not change `split()` |
| `Text.WordsOfWord` | monitor.py:26 | a non-empty string without whitespace is a single word |
| `Text.WordsOfSpaces` | monitor.py:26 | a string that is all whitespace has no words |
| `Text.WordsJoin` | monitor.py:26 | words joined with whitespace are split back into the same words |
| `Text.ContainsIff` | monitor.py:74 | the test `'://' in url` holds exactly when `://` occurs at some index of the URL |
| `Text.NatToDecimal` | monitor.py:120 | `str(n)` is a non-empty string of digits with no leading zero |
| `Text.NatToDecimalRoundTrip` | monitor.py:120 | the decimal text of `n` reads back as `n` |
| `Text.IntToDecimal` | monitor.py:84 | `str(i)` starts with `-` exactly when `i` is negative, and digits follow |
| `Text.IntToDecimalRoundTrip` | monitor.py:84 | the decimal text of any integer reads back as that integer |
| `UrlSource.ChunkTokens` | monitor.py:26 | every token the nested comprehension yields is non-empty and holds no comma or whitespace |
| `UrlSource.StripEachWords` | monitor.py:26 | stripping whitespace-free words leaves them unchanged |
| `UrlSource.WordsOfCommaFree` | monitor.py:26 | once commas become spaces, no word holds a comma or whitespace |
| `UrlSource.KeepUrls` | monitor.py:27 | the filter keeps only non-empty tokens not starting with `#`, all taken from its input, and never more tokens than it is given |
| `UrlSource.KeepUrlsConcat` | monitor.py:27 | the filter works token by token, so it distributes over concatenation |
| `UrlSource.ParseBlob` | monitor.py:22-27 | every URL from the blob is non-empty, holds no comma or whitespace, and does not start with `#` |
| `UrlSource.CommasToSpacesAt` | monitor.py:26 | `replace(',', ' ')` works character by character |
| `UrlSource.CommasToSpacesConcat` | monitor.py:26 | `replace(',', ' ')` distributes over concatenation |
| `UrlSource.ChunkTokensFlat` | monitor.py:26 | splitting on newlines, then on commas and whitespace, equals one split of the rejoined text on commas and whitespace |
| `UrlSource.ParseBlobFlat` | monitor.py:22-27 | reference definition: the blob's URLs are its comma-or-whitespace separated tokens, in order, without empty and `#` tokens; this also covers the empty blob |
| `UrlSource.ParseBlobAt` | monitor.py:26-27 | any separator splits a blob into two parts parsed independently, so URLs keep their order and duplicates are kept |
| `UrlSource.LeadingSeparators` | monitor.py:26 | separators at the start of a blob are ignored |
| `UrlSource.ParseBlobAtRun` | monitor.py:26 | a run of separators splits a blob like a single separator |
| `UrlSource.TwoUrls` | monitor.py:26-27 | two URLs with separators between them are read back as those two URLs, in order |
| `UrlSource.ParseBlobToken` | monitor.py:26-27 | a single separator-free token is kept, unless it starts with `#` |
| `UrlSource.ParseBlobSeparatorsOnly` | monitor.py:23-27 | a blob of only commas and whitespace, the empty blob included, yields no URL |
| `UrlSource.CommentDropsOnlyItsToken` | monitor.py:26-27 | a `#` token drops only itself, and the tokens after it on its line survive |
| `UrlSource.CommentTokenFirst` | monitor.py:26-27 | a `#` token at the start of a line hides only itself |
| `UrlSource.CommentLineExample` | monitor.py:26-27 | the blob `# note here` gives `["note", "here"]` |
| `UrlSource.ParseBlobUrlFirst` | monitor.py:26-27 | a URL token followed by a separator is the blob's first URL, and the rest of the blob gives the rest |
| `UrlSource.ParseBlobJoin` | monitor.py:22-27 | URLs joined with any one separator are read back exactly, duplicates included |
| `UrlSource.FileUrls` | monitor.py:39-43 | the file fallback returns at most one URL per line, and each is stripped, non-empty and does not start with `#` |
| `UrlSource.FileUrlsConcat` | monitor.py:39-43 | the file's URLs follow the order of its lines |
| `UrlSource.FileUrlsOfLine` | monitor.py:40-43 | a padded line contributes its stripped text, or nothing when that text is empty or a comment |
| `UrlSource.FileUrlsOfUrls` | monitor.py:39-43 | a file with one unpadded URL per line is read back exactly |
| `UrlSource.ReadUrlFile` | monitor.py:36-43 | the line loop collects exactly the URLs `FileUrls` describes |
| `UrlSource.LoadUrls` | monitor.py:30-46 | a blob that yields URLs wins and the file plays no part; otherwise the file's URLs are used; an empty blob and a missing file give `[]` |
| `Probe.Classify` | monitor.py:55-75 | no record exactly when the response status is below 400; any record is for that URL, keeps the elapsed time, has a status exactly when a response came back, and holds exactly one of a status of at least 400 or a non-empty error |
| `Probe.ClassifyRecord` | monitor.py:57-75 | a failing status gives that status, no error and the netloc; a transport error gives `Kind: message`, no status, and the netloc as host only when `://` occurs in the URL, else the raw URL |
| `Probe.FailuresOf` | monitor.py:49-76 | there are at most as many records as URLs; every record is well formed and is for one of the URLs |
| `Probe.FailuresOfConcat` | monitor.py:52-76 | the records of two lists probed in sequence are those of each list, in that order |
| `Probe.FailuresOfOne` | monitor.py:52-76 | probing a single URL gives its record, or nothing when it is healthy |
| `Probe.FailuresOfFirst` | monitor.py:52-76 | the first URL's record, if any, comes before the records of the others |
| `Probe.FailingUrls` | monitor.py:57-75 | every URL listed failed its probe and comes from the input |
| `Probe.FailuresMatchFailingUrls` | monitor.py:52-76 | each failing URL gets one record, in input order, and no healthy URL gets one |
| `Probe.NoFailuresIffAllHealthy` | monitor.py:57-75 | no record exactly when every URL answered with a status below 400 |
| `Probe.FailuresWhenAllFail` | monitor.py:52-76 | when every probe fails, the k-th record is the record for the k-th URL |
| `Probe.CheckUrls` | monitor.py:49-76 | the loop collects exactly the records `FailuresOf` describes |
| `Report.Reason` | monitor.py:79-85 | the reason is never empty |
| `Report.ReasonOfRecord` | monitor.py:79-85 | the reason for a probe's record is its error text, or `HTTP <status>` from which the status reads back; it is never `Unknown error` |
| `Report.ReasonFallsThrough` | monitor.py:81-85 | an empty error counts as no error: the status decides, and without a status the reason is `Unknown error` |
| `Report.AlertFields` | monitor.py:107-122 | the first `min(n, 20)` fields detail the failures in order; an overflow field for `n - 20` follows exactly when `n > 20`; there are never more than 21 fields |
| `Report.AlertFieldsOf` | monitor.py:107-122 | the field loop and the overflow check build exactly the fields `AlertFields` describes |
| `Report.OverflowCountReadsBack` | monitor.py:116-122 | the overflow field reads `<n-20> additional failures not shown.`, and its number reads back as `n - 20` |
| `Report.Sink.Send` | monitor.py:129 | one outbound call appends one message to the log |
| `Report.NotifyOnFailures` | monitor.py:88-129 | no failures means no send; otherwise exactly one send, with the alert message (title, description, colour, fields, footer, `@here` with everyone allowed) |
| `Monitor.Run` | monitor.py:132-135 | a run resolves the URLs, probes them, and sends the alert, with the URL count as total, exactly when some record exists |
| `Monitor.OneUpOneDown` | monitor.py:132-135 | `up, down`, where `up` answers 200 and `down` refuses the connection, gives one record for `down` with an error and no status, and a one-field alert |
| `Monitor.OneUpOneDownBlob` | monitor.py:22-27 | the blob `https://ok.example.com, https://down.example.com` gives those two URLs in order |
| `Monitor.TwentyFiveServerErrors` | monitor.py:107-122 | 25 URLs that all answer 500 give 20 fields reading `HTTP 500` and then `5 additional failures not shown.` |

## Left out

- The HTTP request (`requests.get`, the 10-second timeout, redirects, TLS) is left out. It is network I/O, so the outcome of each request is a parameter. Because `fetch` is a function, a URL listed twice gets the same outcome twice in one run.
- Exceptions other than `requests.RequestException` propagate out of `check_urls`. The model does not include them.
- Elapsed times are not computed (`timedelta.total_seconds() * 1000`, truncated to an integer). That is float arithmetic on clock readings, so each outcome carries its time as an integer.
- `checked_at`, `datetime.now()` and the embed's `timestamp` are left out because they read the clock. The formatted time in the description is a parameter.
- `now` does not capture the time zone. monitor.py:95 reads the local clock with `datetime.now()`, yet monitor.py:101 labels that time `UTC`. The two agree only on a host whose clock runs in UTC.
- `urlparse(...).netloc` is left out because it is library parsing. It is the parameter `netloc`.
- Configuration loading (`dotenv`, `os.getenv`, the default `urls.txt` and `unknown`) is left out. It is environment I/O, so its values are parameters.
- Opening and decoding the file is left out. Errors other than `FileNotFoundError` propagate, and Python splits the file into lines. The file is given as its list of lines.
- `SyncWebhook.from_url`, `AllowedMentions` and the `Embed` object belong to a foreign library. The message is a value, `everyone=True` is a boolean, and the webhook is a send log. The model does not include the failures those calls can raise when the webhook URL is empty or the send fails.
- The `'n/a'` latency text is left out because it cannot happen: every record has an integer elapsed time.
