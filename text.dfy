/**
  The few operations of Python's `str` that monitor.py relies on:
  `str.isspace`, `strip()`, `split(sep)`, `split()` with no argument,
  `'sub' in s`, and `str(n)` for an integer `n`.
 */
module Text {

  /** The characters for which Python's `str.isspace()` holds; `split()` and
      `strip()` without arguments treat exactly these as whitespace. */
  predicate IsSpace(c: char) {
    var n := c as int;
    (0x09 <= n <= 0x0D) || (0x1C <= n <= 0x20) || n == 0x85 || n == 0xA0 || n == 0x1680
    || (0x2000 <= n <= 0x200A) || n == 0x2028 || n == 0x2029 || n == 0x202F
    || n == 0x205F || n == 0x3000
  }

  predicate NoSpace(s: string) {
    forall i :: 0 <= i < |s| ==> !IsSpace(s[i])
  }

  predicate AllSpace(s: string) {
    forall i :: 0 <= i < |s| ==> IsSpace(s[i])
  }

  /** Neither end of `s` is whitespace: `s` is its own `strip()`. */
  predicate Trimmed(s: string) {
    s == [] || (!IsSpace(s[0]) && !IsSpace(s[|s| - 1]))
  }

  // ---------------------------------------------------------------------
  // strip()

  /** `s.lstrip()`: never longer than `s`, and not starting with whitespace. */
  function StripLeft(s: string): (r: string)
    ensures |r| <= |s|
    ensures r == [] || !IsSpace(r[0])
  {
    if s != [] && IsSpace(s[0]) then StripLeft(s[1..]) else s
  }

  /** What `lstrip()` drops is a run of whitespace, and it keeps the rest. */
  lemma {:induction false} StripLeftSuffix(s: string)
    ensures forall j :: 0 <= j < |s| - |StripLeft(s)| ==> IsSpace(s[j])
    ensures forall j :: 0 <= j < |StripLeft(s)| ==> StripLeft(s)[j] == s[|s| - |StripLeft(s)| + j]
  {
    if s != [] && IsSpace(s[0]) {
      StripLeftSuffix(s[1..]);
    }
  }

  /** `s.rstrip()`: never longer than `s`, and not ending with whitespace. */
  function StripRight(s: string): (r: string)
    ensures |r| <= |s|
    ensures r == [] || !IsSpace(r[|r| - 1])
  {
    if s != [] && IsSpace(s[|s| - 1]) then StripRight(s[..|s| - 1]) else s
  }

  /** What `rstrip()` drops is a run of whitespace, and it keeps the rest. */
  lemma {:induction false} StripRightPrefix(s: string)
    ensures forall j :: |StripRight(s)| <= j < |s| ==> IsSpace(s[j])
    ensures forall j :: 0 <= j < |StripRight(s)| ==> StripRight(s)[j] == s[j]
  {
    if s != [] && IsSpace(s[|s| - 1]) {
      StripRightPrefix(s[..|s| - 1]);
    }
  }

  /** `s.strip()`: no whitespace is left at either end. */
  function Strip(s: string): (r: string)
    ensures Trimmed(r) && |r| <= |s|
  {
    var l := StripLeft(s);
    StripRightPrefix(l);
    StripRight(l)
  }

  /** `s` is some whitespace, then `s.strip()`, then some whitespace. */
  lemma StripDecomposes(s: string)
    ensures |s| - |StripLeft(s)| + |Strip(s)| <= |s|
    ensures forall j :: 0 <= j < |s| - |StripLeft(s)| ==> IsSpace(s[j])
    ensures forall j :: 0 <= j < |Strip(s)| ==> Strip(s)[j] == s[|s| - |StripLeft(s)| + j]
    ensures forall j :: |s| - |StripLeft(s)| + |Strip(s)| <= j < |s| ==> IsSpace(s[j])
  {
    var l := StripLeft(s);
    var r := StripRight(l);
    var i := |s| - |l|;
    assert Strip(s) == r;
    assert forall j :: 0 <= j < i ==> IsSpace(s[j]) by {
      StripLeftSuffix(s);
    }
    assert forall j :: 0 <= j < |r| ==> r[j] == s[i + j] by {
      StripLeftSuffix(s);
      StripRightPrefix(l);
      forall j | 0 <= j < |r| ensures r[j] == s[i + j] {
        assert r[j] == l[j];
      }
    }
    assert forall j :: i + |r| <= j < |s| ==> IsSpace(s[j]) by {
      StripLeftSuffix(s);
      StripRightPrefix(l);
      forall j | i + |r| <= j < |s| ensures IsSpace(s[j]) {
        assert s[j] == l[j - i];
      }
    }
  }

  lemma {:induction false} StripLeftSkips(pre: string, rest: string)
    requires AllSpace(pre) && (rest == [] || !IsSpace(rest[0]))
    ensures StripLeft(pre + rest) == rest
  {
    if pre == [] {
      assert pre + rest == rest;
    } else {
      assert (pre + rest)[1..] == pre[1..] + rest;
      StripLeftSkips(pre[1..], rest);
    }
  }

  lemma {:induction false} StripRightSkips(rest: string, post: string)
    requires AllSpace(post) && (rest == [] || !IsSpace(rest[|rest| - 1]))
    ensures StripRight(rest + post) == rest
  {
    if post == [] {
      assert rest + post == rest;
    } else {
      var p := post[..|post| - 1];
      assert (rest + post)[..|rest + post| - 1] == rest + p;
      StripRightSkips(rest, p);
    }
  }

  /** `strip()` is characterised by its result: whatever whitespace
      surrounds a trimmed string, stripping gives back that string. */
  lemma StripPadded(pre: string, w: string, post: string)
    requires AllSpace(pre) && AllSpace(post) && Trimmed(w)
    ensures Strip(pre + w + post) == w
  {
    if w == [] {
      assert pre + w + post == (pre + post) + [];
      StripLeftSkips(pre + post, []);
    } else {
      assert pre + w + post == pre + (w + post);
      StripLeftSkips(pre, w + post);
      StripRightSkips(w, post);
    }
  }

  /** A string with no whitespace at all is left alone by `strip()`. */
  lemma StripNoSpace(s: string)
    requires NoSpace(s)
    ensures Strip(s) == s
  {
    assert [] + s + [] == s;
    StripPadded([], s, []);
  }

  /** Stripping twice is stripping once. */
  lemma StripIdempotent(s: string)
    ensures Strip(Strip(s)) == Strip(s)
  {
    var r := Strip(s);
    var e: string := [];
    assert e + r + e == r;
    StripPadded(e, r, e);
  }

  // ---------------------------------------------------------------------
  // split(sep) and its inverse sep.join(parts)

  /** `s.split(sep)` for a one-character separator: never empty, and no
      piece contains the separator. */
  function SplitOn(s: string, sep: char): (parts: seq<string>)
    ensures |parts| >= 1
    ensures forall k :: 0 <= k < |parts| ==> sep !in parts[k]
  {
    if s == [] then [[]]
    else
      var rest := SplitOn(s[1..], sep);
      if s[0] == sep then [[]] + rest
      else [[s[0]] + rest[0]] + rest[1..]
  }

  /** `sep.join(parts)`. */
  function JoinWith(parts: seq<string>, sep: char): string {
    if parts == [] then []
    else if |parts| == 1 then parts[0]
    else parts[0] + [sep] + JoinWith(parts[1..], sep)
  }

  /** Splitting at one more separator splits the two sides independently. */
  lemma {:induction false} SplitOnAt(a: string, sep: char, b: string)
    ensures SplitOn(a + [sep] + b, sep) == SplitOn(a, sep) + SplitOn(b, sep)
  {
    if a == [] {
      assert a + [sep] + b == [sep] + b;
      assert ([sep] + b)[1..] == b;
    } else {
      var s := a + [sep] + b;
      assert s[0] == a[0];
      assert s[1..] == a[1..] + [sep] + b;
      SplitOnAt(a[1..], sep, b);
    }
  }

  /** A string without the separator splits into itself alone. */
  lemma {:induction false} SplitOnPlain(a: string, sep: char)
    requires sep !in a
    ensures SplitOn(a, sep) == [a]
  {
    if a != [] {
      assert sep !in a[1..] by {
        forall i | 0 <= i < |a[1..]| ensures a[1..][i] != sep { assert a[1..][i] == a[i + 1]; }
      }
      SplitOnPlain(a[1..], sep);
      assert [a[0]] + a[1..] == a;
    }
  }

  /** Joining the pieces of a split gives back the string. */
  lemma {:induction false} JoinSplit(s: string, sep: char)
    ensures JoinWith(SplitOn(s, sep), sep) == s
  {
    if s != [] {
      var rest := SplitOn(s[1..], sep);
      JoinSplit(s[1..], sep);
      if s[0] == sep {
        assert ([[]] + rest)[1..] == rest;
        assert [sep] + s[1..] == s;
      } else {
        var parts := [[s[0]] + rest[0]] + rest[1..];
        if |rest| == 1 {
          assert [s[0]] + s[1..] == s;
        } else {
          assert parts[1..] == rest[1..];
          assert JoinWith(rest, sep) == rest[0] + [sep] + JoinWith(rest[1..], sep);
          assert [s[0]] + s[1..] == s;
          assert JoinWith(parts, sep) == [s[0]] + (rest[0] + [sep] + JoinWith(rest[1..], sep));
        }
      }
    }
  }

  /** Splitting a join of separator-free pieces gives back the pieces. */
  lemma {:induction false} SplitJoin(parts: seq<string>, sep: char)
    requires |parts| >= 1
    requires forall k :: 0 <= k < |parts| ==> sep !in parts[k]
    ensures SplitOn(JoinWith(parts, sep), sep) == parts
  {
    SplitOnPlain(parts[0], sep);
    if |parts| > 1 {
      SplitJoin(parts[1..], sep);
      SplitOnAt(parts[0], sep, JoinWith(parts[1..], sep));
      assert [parts[0]] + parts[1..] == parts;
    }
  }

  // ---------------------------------------------------------------------
  // split() with no argument

  /** `s.split()`: the maximal runs of non-whitespace characters of `s`. */
  function Words(s: string): (words: seq<string>)
    ensures forall k :: 0 <= k < |words| ==> words[k] != [] && NoSpace(words[k])
    ensures forall k, i :: 0 <= k < |words| && 0 <= i < |words[k]| ==> words[k][i] in s
    ensures s != [] && !IsSpace(s[0]) ==> words != []
  {
    if s == [] then []
    else
      var rest := Words(s[1..]);
      if IsSpace(s[0]) then rest
      else if |s| > 1 && !IsSpace(s[1]) then [[s[0]] + rest[0]] + rest[1..]
      else [[s[0]]] + rest
  }

  /** A whitespace character separates the words on its two sides. */
  lemma {:induction false} WordsAt(a: string, c: char, b: string)
    requires IsSpace(c)
    ensures Words(a + [c] + b) == Words(a) + Words(b)
  {
    var s := a + [c] + b;
    if a == [] {
      assert s == [c] + b && s[1..] == b;
    } else {
      assert s[0] == a[0];
      assert s[1..] == a[1..] + [c] + b;
      WordsAt(a[1..], c, b);
      if |a| == 1 {
        assert s[1] == c;
      } else {
        assert s[1] == a[1];
      }
    }
  }

  /** Leading whitespace does not change the words. */
  lemma {:induction false} WordsAfterSpaces(sp: string, s: string)
    requires AllSpace(sp)
    ensures Words(sp + s) == Words(s)
  {
    if sp != [] {
      assert (sp + s)[0] == sp[0];
      assert (sp + s)[1..] == sp[1..] + s;
      WordsAfterSpaces(sp[1..], s);
    } else {
      assert sp + s == s;
    }
  }

  /** A non-empty string with no whitespace is one word. */
  lemma {:induction false} WordsOfWord(w: string)
    requires w != [] && NoSpace(w)
    ensures Words(w) == [w]
  {
    if |w| > 1 {
      assert NoSpace(w[1..]) by {
        forall i | 0 <= i < |w[1..]| ensures !IsSpace(w[1..][i]) { assert w[1..][i] == w[i + 1]; }
      }
      WordsOfWord(w[1..]);
      assert !IsSpace(w[1]);
      assert [w[0]] + w[1..] == w;
    } else {
      assert w[1..] == [] && [w[0]] == w;
    }
  }

  /** Only whitespace: no words. */
  lemma {:induction false} WordsOfSpaces(s: string)
    requires AllSpace(s)
    ensures Words(s) == []
  {
    if s != [] {
      WordsOfSpaces(s[1..]);
    }
  }

  /** `' '.join(words).split() == words` for well-formed words. */
  lemma {:induction false} WordsJoin(words: seq<string>, c: char)
    requires IsSpace(c)
    requires forall k :: 0 <= k < |words| ==> words[k] != [] && NoSpace(words[k])
    ensures Words(JoinWith(words, c)) == words
  {
    if words != [] {
      WordsOfWord(words[0]);
      if |words| > 1 {
        WordsJoin(words[1..], c);
        WordsAt(words[0], c, JoinWith(words[1..], c));
        assert [words[0]] + words[1..] == words;
      }
    }
  }

  // ---------------------------------------------------------------------
  // `pat in s`

  /** `pat` stands in `s` starting at index `i`. */
  predicate OccursAt(s: string, pat: string, i: nat) {
    i + |pat| <= |s| && s[i..i + |pat|] == pat
  }

  /** Python's substring test `pat in s`. */
  function Contains(s: string, pat: string): bool {
    if |s| < |pat| then false
    else if s[..|pat|] == pat then true
    else s != [] && Contains(s[1..], pat)
  }

  /** `Contains` finds `pat` exactly when it occurs at some index. */
  lemma {:induction false} ContainsIff(s: string, pat: string)
    ensures Contains(s, pat) <==> exists i: nat :: OccursAt(s, pat, i)
  {
    if |s| < |pat| {
      forall i: nat ensures !OccursAt(s, pat, i) { }
    } else if s[..|pat|] == pat {
      assert OccursAt(s, pat, 0);
    } else {
      ContainsIff(s[1..], pat);
      if exists i: nat :: OccursAt(s[1..], pat, i) {
        var i: nat :| OccursAt(s[1..], pat, i);
        assert s[i + 1..i + 1 + |pat|] == s[1..][i..i + |pat|];
        assert OccursAt(s, pat, i + 1);
      }
      if exists i: nat :: OccursAt(s, pat, i) {
        var i: nat :| OccursAt(s, pat, i);
        assert i != 0;
        assert s[1..][i - 1..i - 1 + |pat|] == s[i..i + |pat|];
        assert OccursAt(s[1..], pat, i - 1);
      }
    }
  }

  // ---------------------------------------------------------------------
  // str(n)

  predicate IsDigit(c: char) {
    '0' <= c <= '9'
  }

  predicate AllDigits(s: string) {
    forall i :: 0 <= i < |s| ==> IsDigit(s[i])
  }

  function DigitChar(d: nat): (c: char)
    requires d < 10
    ensures IsDigit(c) && c as int - '0' as int == d
  {
    ('0' as int + d) as char
  }

  /** The value of a string of decimal digits. */
  function DecimalValue(s: string): nat
    requires AllDigits(s)
  {
    if s == [] then 0
    else DecimalValue(s[..|s| - 1]) * 10 + (s[|s| - 1] as int - '0' as int)
  }

  /** `str(n)` for `n >= 0`: decimal digits with no leading zero. */
  function NatToDecimal(n: nat): (s: string)
    ensures s != [] && AllDigits(s)
    ensures s[0] == '0' ==> n == 0
  {
    if n < 10 then [DigitChar(n)]
    else NatToDecimal(n / 10) + [DigitChar(n % 10)]
  }

  /** Reading the decimal text back gives the number. */
  lemma {:induction false} NatToDecimalRoundTrip(n: nat)
    ensures DecimalValue(NatToDecimal(n)) == n
  {
    if n >= 10 {
      var p := NatToDecimal(n / 10);
      var s := p + [DigitChar(n % 10)];
      assert s[..|s| - 1] == p;
      NatToDecimalRoundTrip(n / 10);
    }
  }

  /** `str(i)` for any integer: a minus sign before the digits when negative. */
  function IntToDecimal(i: int): (s: string)
    ensures s != [] && (s[0] == '-' <==> i < 0)
    ensures AllDigits(if i < 0 then s[1..] else s)
  {
    if i < 0 then "-" + NatToDecimal(-i) else NatToDecimal(i)
  }

  /** Reading a (possibly signed) decimal text back. */
  function SignedDecimalValue(s: string): int
    requires s != [] && AllDigits(if s[0] == '-' then s[1..] else s)
  {
    if s[0] == '-' then -(DecimalValue(s[1..]) as int) else DecimalValue(s)
  }

  lemma IntToDecimalRoundTrip(i: int)
    ensures SignedDecimalValue(IntToDecimal(i)) == i
  {
    if i < 0 {
      assert IntToDecimal(i)[1..] == NatToDecimal(-i);
      NatToDecimalRoundTrip(-i);
    } else {
      NatToDecimalRoundTrip(i);
    }
  }
}
