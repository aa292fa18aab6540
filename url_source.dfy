/**
  URL source resolution (monitor.py `_parse_urls_blob` and `_load_urls`):
  the URL list comes from a configuration blob when that yields any URL, and
  otherwise from the lines of a URL file, which may be missing.
 */
module UrlSource {
  import opened Wrappers
  import opened Text

  /** What separates URLs in a blob: a comma or any whitespace (a newline
      is whitespace too). */
  predicate IsSeparator(c: char) {
    c == ',' || IsSpace(c)
  }

  predicate NoSeparator(s: string) {
    forall i :: 0 <= i < |s| ==> !IsSeparator(s[i])
  }

  /** A token or line the monitor keeps as a URL: not empty, and not a
      comment (one starting with `#`). */
  predicate IsUrlEntry(p: string) {
    p != [] && p[0] != '#'
  }

  /** `chunk.replace(',', ' ')`. */
  function CommasToSpaces(s: string): string {
    seq(|s|, i requires 0 <= i < |s| => if s[i] == ',' then ' ' else s[i])
  }

  /** `[p.strip() for p in ps]`. */
  function StripEach(ps: seq<string>): seq<string> {
    seq(|ps|, i requires 0 <= i < |ps| => Strip(ps[i]))
  }

  /** `[p.strip() for chunk in chunks for p in chunk.replace(',', ' ').split()]`:
      every token is non-empty and holds no separator. */
  function ChunkTokens(chunks: seq<string>): (tokens: seq<string>)
    ensures forall k :: 0 <= k < |tokens| ==> tokens[k] != [] && NoSeparator(tokens[k])
  {
    if chunks == [] then []
    else
      var words := Words(CommasToSpaces(chunks[0]));
      StripEachWords(words);
      WordsOfCommaFree(chunks[0]);
      StripEach(words) + ChunkTokens(chunks[1..])
  }

  /** Once commas are spaces, no word holds a comma or whitespace. */
  lemma WordsOfCommaFree(chunk: string)
    ensures var words := Words(CommasToSpaces(chunk));
      forall k :: 0 <= k < |words| ==> NoSeparator(words[k])
  {
    var c := CommasToSpaces(chunk);
    var words := Words(c);
    forall k, i | 0 <= k < |words| && 0 <= i < |words[k]| ensures !IsSeparator(words[k][i]) {
      assert words[k][i] in c;
      var j :| 0 <= j < |c| && c[j] == words[k][i];
    }
  }

  /** Words have no whitespace, so stripping them changes nothing. */
  lemma StripEachWords(words: seq<string>)
    requires forall k :: 0 <= k < |words| ==> NoSpace(words[k])
    ensures StripEach(words) == words
  {
    forall k | 0 <= k < |words| ensures StripEach(words)[k] == words[k] {
      StripNoSpace(words[k]);
    }
  }

  /** `[p for p in parts if p and not p.startswith('#')]`. */
  function KeepUrls(parts: seq<string>): (urls: seq<string>)
    ensures |urls| <= |parts|
    ensures forall k :: 0 <= k < |urls| ==> IsUrlEntry(urls[k]) && urls[k] in parts
  {
    if parts == [] then []
    else (if IsUrlEntry(parts[0]) then [parts[0]] else []) + KeepUrls(parts[1..])
  }

  lemma {:induction false} KeepUrlsConcat(a: seq<string>, b: seq<string>)
    ensures KeepUrls(a + b) == KeepUrls(a) + KeepUrls(b)
  {
    if a == [] {
      assert a + b == b;
    } else {
      assert (a + b)[1..] == a[1..] + b;
      KeepUrlsConcat(a[1..], b);
    }
  }

  /** `_parse_urls_blob(blob)`: every URL it returns is non-empty, holds no
      comma or whitespace and does not start with `#`. */
  function ParseBlob(blob: string): (urls: seq<string>)
    ensures forall k :: 0 <= k < |urls| ==> IsUrlEntry(urls[k]) && NoSeparator(urls[k])
  {
    if blob == [] then []
    else
      var urls := KeepUrls(ChunkTokens(SplitOn(blob, '\n')));
      assert forall k :: 0 <= k < |urls| ==> NoSeparator(urls[k]) by {
        forall k | 0 <= k < |urls| ensures NoSeparator(urls[k]) {
          var p := ChunkTokens(SplitOn(blob, '\n'));
          assert urls[k] in p;
          var j :| 0 <= j < |p| && p[j] == urls[k];
        }
      }
      urls
  }

  lemma {:induction false} CommasToSpacesAt(a: string, c: char, b: string)
    ensures CommasToSpaces(a + [c] + b)
         == CommasToSpaces(a) + [if c == ',' then ' ' else c] + CommasToSpaces(b)
  {
    var l := CommasToSpaces(a + [c] + b);
    var r := CommasToSpaces(a) + [if c == ',' then ' ' else c] + CommasToSpaces(b);
    assert |l| == |r|;
    forall i | 0 <= i < |l| ensures l[i] == r[i] {
      if i < |a| {
      } else if i == |a| {
      } else {
        assert r[i] == CommasToSpaces(b)[i - |a| - 1];
      }
    }
  }

  /** Splitting on newlines first and then on commas and whitespace is the
      same as splitting the whole chunk list, joined back with newlines, on
      commas and whitespace at once. */
  lemma {:induction false} ChunkTokensFlat(chunks: seq<string>)
    ensures ChunkTokens(chunks) == Words(CommasToSpaces(JoinWith(chunks, '\n')))
  {
    if chunks != [] {
      var words := Words(CommasToSpaces(chunks[0]));
      StripEachWords(words);
      if |chunks| == 1 {
        assert ChunkTokens(chunks) == words + ChunkTokens([]);
      } else {
        ChunkTokensFlat(chunks[1..]);
        var rest := JoinWith(chunks[1..], '\n');
        CommasToSpacesAt(chunks[0], '\n', rest);
        WordsAt(CommasToSpaces(chunks[0]), '\n', CommasToSpaces(rest));
      }
    }
  }

  /** Reference definition: the blob's URLs are its comma-or-whitespace
      separated tokens, in order, minus empty and `#` tokens. */
  lemma ParseBlobFlat(blob: string)
    ensures ParseBlob(blob) == KeepUrls(Words(CommasToSpaces(blob)))
  {
    if blob != [] {
      ChunkTokensFlat(SplitOn(blob, '\n'));
      JoinSplit(blob, '\n');
    } else {
      assert CommasToSpaces(blob) == [];
    }
  }

  /** A separator splits a blob into two blobs parsed independently, so the
      URLs come out in their order of appearance and none is dropped for
      repeating an earlier one. */
  lemma ParseBlobAt(a: string, c: char, b: string)
    requires IsSeparator(c)
    ensures ParseBlob(a + [c] + b) == ParseBlob(a) + ParseBlob(b)
  {
    ParseBlobFlat(a + [c] + b);
    ParseBlobFlat(a);
    ParseBlobFlat(b);
    CommasToSpacesAt(a, c, b);
    WordsAt(CommasToSpaces(a), if c == ',' then ' ' else c, CommasToSpaces(b));
    KeepUrlsConcat(Words(CommasToSpaces(a)), Words(CommasToSpaces(b)));
  }

  lemma CommasToSpacesConcat(a: string, b: string)
    ensures CommasToSpaces(a + b) == CommasToSpaces(a) + CommasToSpaces(b)
  {
  }

  /** Separators at the start of a blob are ignored. */
  lemma LeadingSeparators(seps: string, b: string)
    requires forall i :: 0 <= i < |seps| ==> IsSeparator(seps[i])
    ensures ParseBlob(seps + b) == ParseBlob(b)
  {
    ParseBlobFlat(seps + b);
    ParseBlobFlat(b);
    CommasToSpacesConcat(seps, b);
    WordsAfterSpaces(CommasToSpaces(seps), CommasToSpaces(b));
  }

  /** Any non-empty run of separators splits a blob like a single one. */
  lemma ParseBlobAtRun(a: string, seps: string, b: string)
    requires seps != [] && forall i :: 0 <= i < |seps| ==> IsSeparator(seps[i])
    ensures ParseBlob(a + seps + b) == ParseBlob(a) + ParseBlob(b)
  {
    var rest := seps[1..];
    assert a + seps + b == a + [seps[0]] + (rest + b);
    ParseBlobAt(a, seps[0], rest + b);
    LeadingSeparators(rest, b);
  }

  /** Two URLs with separators between them are read as those two URLs. */
  lemma TwoUrls(u: string, seps: string, v: string)
    requires IsUrlEntry(u) && NoSeparator(u) && IsUrlEntry(v) && NoSeparator(v)
    requires seps != [] && forall i :: 0 <= i < |seps| ==> IsSeparator(seps[i])
    ensures ParseBlob(u + seps + v) == [u, v]
  {
    ParseBlobAtRun(u, seps, v);
    ParseBlobToken(u);
    ParseBlobToken(v);
  }

  /** A blob that is one separator-free token yields that token, unless it is
      a comment token. */
  lemma ParseBlobToken(t: string)
    requires t != [] && NoSeparator(t)
    ensures ParseBlob(t) == if t[0] == '#' then [] else [t]
  {
    ParseBlobFlat(t);
    assert CommasToSpaces(t) == t;
    WordsOfWord(t);
  }

  /** A blob of nothing but commas and whitespace yields no URL. */
  lemma ParseBlobSeparatorsOnly(blob: string)
    requires forall i :: 0 <= i < |blob| ==> IsSeparator(blob[i])
    ensures ParseBlob(blob) == []
  {
    ParseBlobFlat(blob);
    WordsOfSpaces(CommasToSpaces(blob));
  }

  /** A `#` token removes itself only: the tokens after it on the same line
      are still URLs. */
  lemma CommentDropsOnlyItsToken(a: string, t: string, b: string)
    requires t != [] && t[0] == '#' && NoSeparator(t)
    ensures ParseBlob(a + [' '] + t + [' '] + b) == ParseBlob(a) + ParseBlob(b)
  {
    var tail := t + [' '] + b;
    assert a + [' '] + t + [' '] + b == a + [' '] + tail;
    assert IsSeparator(' ');
    ParseBlobAt(a, ' ', tail);
    ParseBlobAt(t, ' ', b);
    ParseBlobToken(t);
    assert ParseBlob(tail) == ParseBlob(b);
  }

  /** A comment token at the start of a line hides nothing but itself. */
  lemma CommentTokenFirst(t: string, rest: string)
    requires t != [] && t[0] == '#' && NoSeparator(t)
    ensures ParseBlob(t + [' '] + rest) == ParseBlob(rest)
  {
    assert IsSeparator(' ');
    ParseBlobAt(t, ' ', rest);
    ParseBlobToken(t);
  }

  /** The blob line `# note here` gives the two URLs `note` and `here`. */
  lemma CommentLineExample()
    ensures ParseBlob("# note here") == ["note", "here"]
  {
    var hash, urls := "#", ["note", "here"];
    assert "# note here" == hash + [' '] + JoinWith(urls, ' ');
    assert hash != [] && hash[0] == '#' && NoSeparator(hash);
    assert IsUrlEntry(urls[0]) && NoSeparator(urls[0]);
    assert IsUrlEntry(urls[1]) && NoSeparator(urls[1]);
    CommentTokenFirst(hash, JoinWith(urls, ' '));
    ParseBlobJoin(urls, ' ');
  }

  /** Any list of URLs written into a blob with one separator between
      neighbours is read back exactly, duplicates included. */
  lemma {:induction false} ParseBlobJoin(urls: seq<string>, c: char)
    requires IsSeparator(c)
    requires forall k :: 0 <= k < |urls| ==> IsUrlEntry(urls[k]) && NoSeparator(urls[k])
    ensures ParseBlob(JoinWith(urls, c)) == urls
  {
    if urls != [] {
      if |urls| == 1 {
        ParseBlobToken(urls[0]);
      } else {
        var rest := urls[1..];
        assert forall k :: 0 <= k < |rest| ==> IsUrlEntry(rest[k]) && NoSeparator(rest[k]) by {
          forall k | 0 <= k < |rest| ensures IsUrlEntry(rest[k]) && NoSeparator(rest[k]) {
            assert rest[k] == urls[k + 1];
          }
        }
        ParseBlobJoin(rest, c);
        ParseBlobJoinStep(urls, c);
      }
    }
  }

  /** The inductive step of `ParseBlobJoin`: the first URL, then the rest. */
  lemma ParseBlobJoinStep(urls: seq<string>, c: char)
    requires IsSeparator(c) && |urls| > 1
    requires IsUrlEntry(urls[0]) && NoSeparator(urls[0])
    requires ParseBlob(JoinWith(urls[1..], c)) == urls[1..]
    ensures ParseBlob(JoinWith(urls, c)) == urls
  {
    var tail := JoinWith(urls[1..], c);
    assert ParseBlob(JoinWith(urls, c)) == [urls[0]] + ParseBlob(tail) by {
      assert JoinWith(urls, c) == urls[0] + [c] + tail;
      ParseBlobUrlFirst(urls[0], c, tail);
    }
    assert [urls[0]] + urls[1..] == urls;
  }

  /** A URL token followed by a separator is the first URL of the blob. */
  lemma ParseBlobUrlFirst(u: string, c: char, tail: string)
    requires IsSeparator(c) && IsUrlEntry(u) && NoSeparator(u)
    ensures ParseBlob(u + [c] + tail) == [u] + ParseBlob(tail)
  {
    ParseBlobToken(u);
    ParseBlobAt(u, c, tail);
  }

  // ---------------------------------------------------------------------
  // The URL file

  /** The URLs the file fallback takes from `lines`: each line stripped,
      then kept unless empty or a comment. */
  function FileUrls(lines: seq<string>): (urls: seq<string>)
    ensures |urls| <= |lines|
    ensures forall k :: 0 <= k < |urls| ==> IsUrlEntry(urls[k]) && Trimmed(urls[k])
  {
    if lines == [] then []
    else
      var line := Strip(lines[|lines| - 1]);
      FileUrls(lines[..|lines| - 1]) + (if IsUrlEntry(line) then [line] else [])
  }

  /** The file's URLs keep the order of its lines. */
  lemma {:induction false} FileUrlsConcat(a: seq<string>, b: seq<string>)
    ensures FileUrls(a + b) == FileUrls(a) + FileUrls(b)
  {
    if b == [] {
      assert a + b == a;
    } else {
      var b' := b[..|b| - 1];
      assert (a + b)[..|a + b| - 1] == a + b';
      assert (a + b)[|a + b| - 1] == b[|b| - 1];
      FileUrlsConcat(a, b');
    }
  }

  /** A line that is blank or a comment once stripped contributes nothing;
      any other line contributes exactly its stripped form. */
  lemma FileUrlsOfLine(pre: string, line: string, post: string)
    requires AllSpace(pre) && AllSpace(post) && Trimmed(line)
    ensures FileUrls([pre + line + post]) == if IsUrlEntry(line) then [line] else []
  {
    StripPadded(pre, line, post);
  }

  /** A file holding one URL per line, without padding, is read back exactly. */
  lemma {:induction false} FileUrlsOfUrls(urls: seq<string>)
    requires forall k :: 0 <= k < |urls| ==> IsUrlEntry(urls[k]) && Trimmed(urls[k])
    ensures FileUrls(urls) == urls
  {
    if urls != [] {
      var last := urls[|urls| - 1];
      assert [] + last + [] == last;
      StripPadded([], last, []);
      FileUrlsOfUrls(urls[..|urls| - 1]);
    }
  }

  /** `_load_urls()`, with the blob and the file's lines (`None` when the
      file does not exist) as parameters. A blob that yields any URL wins
      and the file plays no part; otherwise the file decides, and a missing
      file gives no URL. */
  method LoadUrls(blob: string, file: Option<seq<string>>) returns (urls: seq<string>)
    ensures ParseBlob(blob) != [] ==> urls == ParseBlob(blob)
    ensures ParseBlob(blob) == [] && file.None? ==> urls == []
    ensures ParseBlob(blob) == [] && file.Some? ==> urls == FileUrls(file.value)
  {
    urls := ParseBlob(blob);
    if urls != [] {
      return;
    }
    urls := [];
    if file.Some? {
      urls := ReadUrlFile(file.value);
    }
  }

  /** The file half of `_load_urls()`: each line stripped, and kept unless
      it is then empty or starts with `#`. */
  method ReadUrlFile(lines: seq<string>) returns (urls: seq<string>)
    ensures urls == FileUrls(lines)
  {
    urls := [];
    for i := 0 to |lines|
      invariant urls == FileUrls(lines[..i])
    {
      var line := Strip(lines[i]);
      assert lines[..i + 1][..i] == lines[..i];
      if !IsUrlEntry(line) {
        continue;
      }
      urls := urls + [line];
    }
    assert lines[..|lines|] == lines;
  }
}
