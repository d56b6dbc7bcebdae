/** Characters, scanners and the `str` helpers (strip, splitlines, join, slicing,
    decimal formatting) that the learning-path pipeline relies on, with Python's
    semantics. */
module Text {

  datatype Option<T> = None | Some(value: T)

  /** Python's `str.isspace()` on ASCII characters; the `\s` class of `re` matches
      the same characters, and `str.strip()` without arguments removes them. */
  predicate IsSpace(c: char) {
    c == ' ' || ('\t' <= c <= '\r') || ('\U{1C}' <= c <= '\U{1F}')
  }

  /** The ASCII line boundaries of Python's `str.splitlines()` ("\r\n" counts as one
      boundary). */
  predicate IsLineBreak(c: char) {
    ('\n' <= c <= '\r') || ('\U{1C}' <= c <= '\U{1E}')
  }

  predicate IsDigit(c: char) { '0' <= c <= '9' }

  /** ASCII case folding, which is what `re.IGNORECASE` does to the letters of the
      patterns used by the pipeline. */
  function Lower(c: char): char {
    if 'A' <= c <= 'Z' then (c as int + 32) as char else c
  }

  /** The character classes whose runs the patterns scan. */
  datatype Class =
    | Space         // `\s`
    | Digit         // `\d` (ASCII)
    | NonSpace      // `\S`
    | NotNewline    // `.` without DOTALL, `[^\n]`
    | NotLineBreak  // anything `splitlines` does not break at
    | ListPad       // the characters of `strip(" -\t")`
    | Newline       // "\n" alone

  predicate In(c: char, cls: Class) {
    match cls
    case Space => IsSpace(c)
    case Digit => IsDigit(c)
    case NonSpace => !IsSpace(c)
    case NotNewline => c != '\n'
    case NotLineBreak => !IsLineBreak(c)
    case ListPad => c == ' ' || c == '-' || c == '\t'
    case Newline => c == '\n'
  }

  /** The end of the longest run of `cls` characters that starts at `i`. */
  function RunEnd(s: string, i: nat, cls: Class): (j: nat)
    requires i <= |s|
    ensures i <= j <= |s|
    ensures j == |s| || !In(s[j], cls)
    decreases |s| - i
  {
    if i == |s| || !In(s[i], cls) then i else RunEnd(s, i + 1, cls)
  }

  /** Every character of the run belongs to the class. */
  lemma {:induction false} RunEndAll(s: string, i: nat, cls: Class)
    requires i <= |s|
    ensures forall k | i <= k < RunEnd(s, i, cls) :: In(s[k], cls)
    decreases |s| - i
  {
    if i < |s| && In(s[i], cls) {
      RunEndAll(s, i + 1, cls);
    }
  }

  /** The start of the longest run of `cls` characters that ends at `j` and does not
      reach below `lo`. */
  function RunStart(s: string, lo: nat, j: nat, cls: Class): (b: nat)
    requires lo <= j <= |s|
    ensures lo <= b <= j
    ensures b == lo || !In(s[b - 1], cls)
    decreases j
  {
    if j == lo || !In(s[j - 1], cls) then j else RunStart(s, lo, j - 1, cls)
  }

  /** Every character of the backward run belongs to the class. */
  lemma {:induction false} RunStartAll(s: string, lo: nat, j: nat, cls: Class)
    requires lo <= j <= |s|
    ensures forall k | RunStart(s, lo, j, cls) <= k < j :: In(s[k], cls)
    decreases j
  {
    if j > lo && In(s[j - 1], cls) {
      RunStartAll(s, lo, j - 1, cls);
    }
  }

  /** Python's `s.strip(chars)` where `chars` is the class `cls`. */
  function StripBy(s: string, cls: Class): (r: string)
    ensures |r| <= |s|
    ensures r == "" <==> forall k | 0 <= k < |s| :: In(s[k], cls)
    ensures r != "" ==> !In(r[0], cls) && !In(r[|r| - 1], cls)
  {
    var a := RunEnd(s, 0, cls);
    var b := RunStart(s, a, |s|, cls);
    RunEndAll(s, 0, cls);
    RunStartAll(s, a, |s|, cls);
    assert a < |s| ==> !In(s[a], cls);
    s[a..b]
  }

  /** Python's `s.strip()`. */
  function Strip(s: string): string { StripBy(s, Space) }

  /** Stripping a stripped text changes nothing. */
  lemma StripIdempotent(x: string)
    ensures Strip(Strip(x)) == Strip(x)
  {
    var r := Strip(x);
    if r != "" {
      StripByUnchanged(r, Space);
    }
  }

  /** Stripping a string whose first character is not stripped only cuts its end. */
  lemma StripKeepsStart(s: string, cls: Class)
    requires s != [] && !In(s[0], cls)
    ensures StripBy(s, cls) == s[..RunStart(s, 0, |s|, cls)]
    ensures |StripBy(s, cls)| > 0 && StripBy(s, cls)[0] == s[0]
  {
    assert RunEnd(s, 0, cls) == 0;
  }

  /** Text that neither begins nor ends with a stripped character is left as it is. */
  lemma StripByUnchanged(s: string, cls: Class)
    requires s != [] && !In(s[0], cls) && !In(s[|s| - 1], cls)
    ensures StripBy(s, cls) == s
  {
    assert RunEnd(s, 0, cls) == 0;
    assert RunStart(s, 0, |s|, cls) == |s|;
  }

  /** Every character of the stripped text is a character of the text, at the
      offset of the leading run. */
  lemma StripByChars(s: string, cls: Class)
    ensures var a := RunEnd(s, 0, cls);
      a + |StripBy(s, cls)| <= |s| && forall k | 0 <= k < |StripBy(s, cls)| :: StripBy(s, cls)[k] == s[a + k]
  {
    var a := RunEnd(s, 0, cls);
    assert StripBy(s, cls) == s[a..RunStart(s, a, |s|, cls)];
  }

  /** A run that ends inside the window `c[lo..hi]` is found at the same place in
      the window. */
  lemma {:induction false} RunEndWindow(c: string, lo: nat, hi: nat, i: nat, cls: Class)
    requires lo <= i <= hi <= |c| && RunEnd(c, i, cls) <= hi
    ensures RunEnd(c[lo..hi], i - lo, cls) == RunEnd(c, i, cls) - lo
    decreases hi - i
  {
    if i < hi {
      assert c[lo..hi][i - lo] == c[i];
      if In(c[i], cls) {
        RunEndWindow(c, lo, hi, i + 1, cls);
      }
    }
  }

  /** A run over characters that all belong to the class reaches the end of the text. */
  lemma {:induction false} RunEndFull(s: string, i: nat, cls: Class)
    requires i <= |s| && forall k | i <= k < |s| :: In(s[k], cls)
    ensures RunEnd(s, i, cls) == |s|
    decreases |s| - i
  {
    if i < |s| {
      RunEndFull(s, i + 1, cls);
    }
  }

  /** A backward run stops right after the last character outside the class. */
  lemma {:induction false} RunStartExact(s: string, lo: nat, e: nat, j: nat, cls: Class)
    requires lo < e <= j <= |s| && !In(s[e - 1], cls)
    requires forall k | e <= k < j :: In(s[k], cls)
    ensures RunStart(s, lo, j, cls) == e
    decreases j
  {
    if j > e {
      RunStartExact(s, lo, e, j - 1, cls);
    }
  }

  /** A forward run stops at the first character outside the class. */
  lemma {:induction false} RunEndExact(s: string, i: nat, e: nat, cls: Class)
    requires i <= e <= |s| && (e == |s| || !In(s[e], cls))
    requires forall k | i <= k < e :: In(s[k], cls)
    ensures RunEnd(s, i, cls) == e
    decreases e - i
  {
    if i < e {
      RunEndExact(s, i + 1, e, cls);
    }
  }

  /** `strip()` gives the one slice that has only whitespace on either side of it
      and, unless it is empty, a character that is not whitespace at each end. */
  lemma StripUnique(x: string, a: nat, c: nat)
    requires a <= c <= |x|
    requires forall k | 0 <= k < a :: IsSpace(x[k])
    requires forall k | c <= k < |x| :: IsSpace(x[k])
    requires a < c ==> !IsSpace(x[a]) && !IsSpace(x[c - 1])
    ensures Strip(x) == x[a..c]
  {
    if a < c {
      RunEndExact(x, 0, a, Space);
      RunStartExact(x, a, c, |x|, Space);
    } else {
      assert forall k | 0 <= k < |x| :: In(x[k], Space);
    }
  }

  /** The slice `strip()` keeps, with whitespace only on either side of it. */
  lemma StripParts(u: string) returns (a: nat, c: nat)
    ensures a <= c <= |u| && Strip(u) == u[a..c]
    ensures forall k | 0 <= k < a :: IsSpace(u[k])
    ensures forall k | c <= k < |u| :: IsSpace(u[k])
    ensures a < c ==> !IsSpace(u[a]) && !IsSpace(u[c - 1])
  {
    a := RunEnd(u, 0, Space);
    c := RunStart(u, a, |u|, Space);
    RunEndAll(u, 0, Space);
    RunStartAll(u, a, |u|, Space);
  }

  /** The two halves of a concatenation are its slices at the seam. */
  lemma ConcatSlices(x: string, y: string)
    ensures (x + y)[..|x|] == x && (x + y)[|x|..] == y
  {
  }

  /** A stripped text that is not empty starts and ends with a character that is
      not whitespace. */
  lemma StripEnds(u: string)
    ensures Strip(u) != "" ==> !IsSpace(Strip(u)[0]) && !IsSpace(Last(Strip(u)))
  {
    var a, c := StripParts(u);
    if a < c {
      assert Strip(u)[0] == u[a] && Last(Strip(u)) == u[c - 1];
    }
  }

  /** Stripping keeps a text's line breaks lone "\n"s. */
  lemma StripTidy(u: string)
    requires NewlinesOnly(u)
    ensures NewlinesOnly(Strip(u))
    ensures Strip(u) != "" ==> !IsSpace(Strip(u)[0]) && !IsSpace(Last(Strip(u)))
  {
    var x, z := StripParts(u);
    NewlinesSlice(u, x, z);
    StripEnds(u);
  }

  /** Whitespace in front of a text does not change what it strips to. */
  lemma StripDropFront(x: string, p: nat)
    requires p <= |x| && forall k | 0 <= k < p :: IsSpace(x[k])
    ensures Strip(x[p..]) == Strip(x)
  {
    var u := x[p..];
    var a, c := StripParts(u);
    forall k | 0 <= k < p + a
      ensures IsSpace(x[k])
    {
      if p <= k {
        assert x[k] == u[k - p];
      }
    }
    forall k | p + c <= k < |x|
      ensures IsSpace(x[k])
    {
      assert x[k] == u[k - p];
    }
    assert a < c ==> x[p + a] == u[a] && x[p + c - 1] == u[c - 1];
    StripUnique(x, p + a, p + c);
    assert u[a..c] == x[p + a..p + c];
  }

  /** Whitespace after a text does not change what it strips to. */
  lemma StripDropBack(x: string, p: nat)
    requires p <= |x| && forall k | p <= k < |x| :: IsSpace(x[k])
    ensures Strip(x[..p]) == Strip(x)
  {
    var u := x[..p];
    var a, c := StripParts(u);
    forall k | 0 <= k < a
      ensures IsSpace(x[k])
    {
      assert x[k] == u[k];
    }
    forall k | c <= k < |x|
      ensures IsSpace(x[k])
    {
      if k < p {
        assert x[k] == u[k];
      }
    }
    assert a < c ==> x[a] == u[a] && x[c - 1] == u[c - 1];
    StripUnique(x, a, c);
    assert u[a..c] == x[a..c];
  }

  /** Where the stripped text sits inside the text, given one non-space character. */
  lemma StripSlice(u: string, m: nat)
    requires m < |u| && !IsSpace(u[m])
    ensures RunEnd(u, 0, Space) <= m < RunStart(u, RunEnd(u, 0, Space), |u|, Space)
    ensures Strip(u) == u[RunEnd(u, 0, Space)..RunStart(u, RunEnd(u, 0, Space), |u|, Space)]
  {
    RunEndAll(u, 0, Space);
    RunStartAll(u, RunEnd(u, 0, Space), |u|, Space);
  }

  /** Python's `s.lstrip()`. */
  function LStrip(s: string): string { s[RunEnd(s, 0, Space)..] }

  /** Whitespace in front of a text does not change its `lstrip()`. */
  lemma LStripSpaces(w: string, z: string)
    requires forall k | 0 <= k < |w| :: IsSpace(w[k])
    ensures LStrip(w + z) == LStrip(z)
  {
    var s := w + z;
    var e := RunEnd(z, 0, Space);
    RunEndAll(z, 0, Space);
    forall k | 0 <= k < |w| + e
      ensures In(s[k], Space)
    {
      if k >= |w| {
        assert s[k] == z[k - |w|];
      }
    }
    assert e < |z| ==> s[|w| + e] == z[e];
    RunEndExact(s, 0, |w| + e, Space);
    assert s[|w| + e..] == z[e..];
  }

  /** `lstrip()` of a slice is the slice from the end of its leading whitespace. */
  lemma LStripSlice(c: string, a: nat, v: nat) returns (off: nat)
    requires a <= v <= |c|
    ensures a <= off <= v && LStrip(c[a..v]) == c[off..v]
    ensures forall k | a <= k < off :: IsSpace(c[k])
  {
    var w := c[a..v];
    var sp := RunEnd(w, 0, Space);
    RunEndAll(w, 0, Space);
    off := a + sp;
    forall k | a <= k < off
      ensures IsSpace(c[k])
    {
      assert c[k] == w[k - a];
    }
    assert w[sp..] == c[off..v];
  }

  /** A run that ends before the end of the window `c[lo..hi]` is found at the same
      place in `c`. */
  lemma RunEndFromWindow(c: string, lo: nat, hi: nat, i: nat, cls: Class)
    requires lo <= i <= hi <= |c| && RunEnd(c[lo..hi], i - lo, cls) < hi - lo
    ensures RunEnd(c, i, cls) == lo + RunEnd(c[lo..hi], i - lo, cls)
  {
    var w := c[lo..hi];
    var e := RunEnd(w, i - lo, cls);
    RunEndAll(w, i - lo, cls);
    forall k | i <= k < lo + e
      ensures In(c[k], cls)
    {
      assert c[k] == w[k - lo];
    }
    assert c[lo + e] == w[e];
    RunEndExact(c, i, lo + e, cls);
  }

  /** A run that stops at the end of `y` stops there too when the next character
      does not belong to the run. */
  lemma {:induction false} RunEndAppend(y: string, z: string, i: nat, cls: Class)
    requires i <= |y|
    requires z == [] || !In(z[0], cls)
    ensures RunEnd(y + z, i, cls) == RunEnd(y, i, cls)
    decreases |y| - i
  {
    if i < |y| {
      assert (y + z)[i] == y[i];
      if In(y[i], cls) {
        RunEndAppend(y, z, i + 1, cls);
      }
    } else if z != [] {
      assert (y + z)[i] == z[0];
    }
  }

  /** Stripping text that ends in a word only removes the whitespace in front. */
  lemma StripBeforeWord(y: string, b: string)
    requires b != "" && !IsSpace(b[0]) && !IsSpace(b[|b| - 1])
    ensures Strip(y + b) == LStrip(y) + b
  {
    var s := y + b;
    var a := RunEnd(s, 0, Space);
    RunEndAppend(y, b, 0, Space);
    assert a <= |y|;
    assert RunStart(s, a, |s|, Space) == |s| by {
      assert s[|s| - 1] == b[|b| - 1];
    }
    assert s[a..] == y[a..] + b;
  }

  /** Appending to a text that already has a non-space character does not move the
      end of its leading whitespace. */
  lemma LStripAppend(y: string, z: string, m: nat)
    requires m < |y| && !IsSpace(y[m])
    ensures LStrip(y + z) == LStrip(y) + z
  {
    var s := y + z;
    assert s[m] == y[m];
    RunEndAll(s, 0, Space);
    RunEndWindow(s, 0, |y|, 0, Space);
    assert s[0..|y|] == y;
    var a := RunEnd(y, 0, Space);
    assert s[a..] == y[a..] + z;
  }

  /** A title and a stripped body joined by a blank line strip to the title without
      its leading whitespace, the blank line and the body. */
  lemma StripAroundBlank(title: string, body: string)
    requires title != "" && !IsSpace(title[|title| - 1])
    requires body != "" && !IsSpace(body[0]) && !IsSpace(body[|body| - 1])
    ensures Strip(title + "\n\n" + body) == LStrip(title) + "\n\n" + body
  {
    StripBeforeWord(title + "\n\n", body);
    LStripAppend(title, "\n\n", |title| - 1);
  }

  /** Two stripped texts around a blank line: the text before the seam is the first,
      the text after it strips to the second, and the whole strips to itself. */
  lemma BlankSeam(title: string, body: string)
    requires title != "" && !IsSpace(title[0]) && !IsSpace(title[|title| - 1])
    requires body != "" && !IsSpace(body[0]) && !IsSpace(body[|body| - 1])
    ensures var y := title + "\n\n" + body;
      && y[..|title|] == title && Strip(y[|title|..]) == body && Strip(y) == y
  {
    var y := title + "\n\n" + body;
    ConcatSlices(title, "\n\n" + body);
    assert y == title + ("\n\n" + body);
    StripDropFront("\n\n" + body, 2);
    ConcatSlices("\n\n", body);
    StripByUnchanged(body, Space);
    StripAroundBlank(title, body);
    assert RunEnd(title, 0, Space) == 0;
  }

  /** Two tidy texts around a blank line make a tidy text: lone "\n" line breaks and
      no whitespace at either end. */
  lemma SeamTidy(title: string, body: string)
    requires NewlinesOnly(title) && title != "" && !IsSpace(title[0])
    requires NewlinesOnly(body) && body != "" && !IsSpace(Last(body))
    ensures var y := title + "\n\n" + body;
      NewlinesOnly(y) && !IsSpace(y[0]) && !IsSpace(Last(y))
  {
    NewlinesConcat(title, "\n\n");
    NewlinesConcat(title + "\n\n", body);
  }

  /** `lit` occurs in `s` at `i`. */
  predicate LitAt(s: string, i: nat, lit: string) {
    i + |lit| <= |s| && s[i..i + |lit|] == lit
  }

  /** `lit`, written in lower case, occurs in `s` at `i` up to ASCII case. */
  predicate CiLitAt(s: string, i: nat, lit: string) {
    i + |lit| <= |s| && forall k | 0 <= k < |lit| :: Lower(s[i + k]) == lit[k]
  }

  /** The leftmost occurrence of `lit` at or after `i`, as `str.find` reports it. */
  function Find(s: string, lit: string, i: nat): (r: Option<nat>)
    requires i <= |s|
    ensures r.Some? ==> i <= r.value <= |s| && LitAt(s, r.value, lit)
    ensures r.Some? ==> forall q | i <= q < r.value :: !LitAt(s, q, lit)
    ensures r.None? ==> forall q | i <= q :: !LitAt(s, q, lit)
    decreases |s| - i
  {
    if LitAt(s, i, lit) then Some(i)
    else if i == |s| then None
    else Find(s, lit, i + 1)
  }

  /** Python's `lit in s`. */
  predicate Contains(s: string, lit: string) {
    Find(s, lit, 0).Some?
  }

  /** Python's `s.split(lit)[0]`: the part of `s` before the first `lit`. */
  function Before(s: string, lit: string): (r: string)
    ensures |r| <= |s| && r == s[..|r|]
    ensures Contains(s, lit) ==> LitAt(s, |r|, lit) && forall q: nat | q < |r| :: !LitAt(s, q, lit)
    ensures !Contains(s, lit) ==> r == s
  {
    match Find(s, lit, 0)
    case Some(i) => s[..i]
    case None => s
  }
  /** No occurrence of `lit` starts inside the part of `s` before the first one. */
  lemma BeforeNoLit(s: string, lit: string, q: nat)
    requires q < |Before(s, lit)|
    ensures !LitAt(s, q, lit)
  {
    if !Contains(s, lit) {
      assert Find(s, lit, 0).None?;
    }
  }

  /** The stripped part of `s` before the first `lit` holds no `lit`. */
  lemma StripBeforeNoLit(s: string, lit: string)
    requires lit != ""
    ensures forall q: nat :: !LitAt(Strip(Before(s, lit)), q, lit)
  {
    var b := Before(s, lit);
    var a, c := StripParts(b);
    forall x: nat | x < |b| ensures !LitAt(s, x, lit) {
      BeforeNoLit(s, lit, x);
    }
    forall q: nat ensures !LitAt(s[..|b|][a..c], q, lit) {
      NoLitInPiece(s, lit, |b|, a, c, q);
    }
  }

  /** A piece of a stretch of `s` where no `lit` starts holds no `lit`. */
  lemma NoLitInPiece(s: string, lit: string, m: nat, a: nat, c: nat, q: nat)
    requires lit != "" && a <= c <= m <= |s| && forall x: nat | x < m :: !LitAt(s, x, lit)
    ensures !LitAt(s[..m][a..c], q, lit)
  {
    if q + |lit| <= c - a {
      SliceOfSlice(s[..m], a, c, q, |lit|);
      SliceOfSlice(s, 0, m, a + q, |lit|);
      assert !LitAt(s, a + q, lit);
    }
  }

  /** A slice of a slice is a slice of the whole. */
  lemma SliceOfSlice<T>(s: seq<T>, a: nat, c: nat, q: nat, n: nat)
    requires a <= c <= |s| && q + n <= c - a
    ensures s[a..c][q..q + n] == s[a + q..a + q + n]
  {
    var x, y := s[a..c][q..q + n], s[a + q..a + q + n];
    forall k | 0 <= k < n ensures x[k] == y[k] {
      assert x[k] == s[a..c][q + k];
    }
  }

  /** Python's `s[:n]`. */
  function Take<T>(s: seq<T>, n: nat): (r: seq<T>)
    ensures |r| == if |s| <= n then |s| else n
    ensures forall k | 0 <= k < |r| :: r[k] == s[k]
  {
    if |s| <= n then s else s[..n]
  }

  /** A sequence is its front followed by its last element. */
  lemma FrontLast<T>(s: seq<T>)
    requires s != []
    ensures s[..|s| - 1] + [s[|s| - 1]] == s
  {
  }

  /** One more element of a prefix. */
  lemma PrefixNext<T>(s: seq<T>, i: nat)
    requires i < |s|
    ensures s[..i + 1] == s[..i] + [s[i]]
  {
  }

  /** A non-empty slice is its first element followed by the rest. */
  lemma SliceFront<T>(s: seq<T>, p: nat, m: nat)
    requires p < m <= |s|
    ensures s[p..m] == [s[p]] + s[p + 1..m]
  {
  }

  /** Putting an element in front of a concatenation. */
  /** A slice one longer ends with the next element. */
  lemma SliceNext<T>(s: seq<T>, a: nat, b: nat)
    requires a <= b < |s|
    ensures s[a..b + 1] == s[a..b] + [s[b]]
  {
  }

  lemma ConsConcat<T>(x: T, a: seq<T>, b: seq<T>, c: seq<T>)
    ensures [x] + (a + b + c) == ([x] + a) + b + c
  {
  }

  /** Python's `str.splitlines()`. */
  function SplitLines(s: string): (lines: seq<string>)
    ensures lines == [] <==> s == ""
    ensures forall i | 0 <= i < |lines| :: forall k | 0 <= k < |lines[i]| :: !IsLineBreak(lines[i][k])
    decreases |s|
  {
    if s == "" then []
    else
      var i := RunEnd(s, 0, NotLineBreak);
      RunEndAll(s, 0, NotLineBreak);
      if i == |s| then [s]
      else
        var next := if s[i] == '\r' && i + 1 < |s| && s[i + 1] == '\n' then i + 2 else i + 1;
        [s[..i]] + SplitLines(s[next..])
  }

  /** A text without a line break is a single line. */
  lemma SplitLinesOne(x: string)
    requires x != "" && forall k | 0 <= k < |x| :: !IsLineBreak(x[k])
    ensures SplitLines(x) == [x]
  {
    RunEndFull(x, 0, NotLineBreak);
  }

  /** A text that opens with "\n" has an empty first line. */
  lemma SplitLinesNewline(x: string)
    ensures SplitLines("\n" + x) == [""] + SplitLines(x)
  {
    var s := "\n" + x;
    assert RunEnd(s, 0, NotLineBreak) == 0;
    assert s[1..] == x;
  }

  /** Python's `sep.join(parts)`. */
  function Join(parts: seq<string>, sep: string): string {
    if |parts| == 0 then ""
    else if |parts| == 1 then parts[0]
    else parts[0] + sep + Join(parts[1..], sep)
  }

  /** When a text does not end in a line break, its last line is not empty and ends
      with the text's last character. */
  lemma {:induction false} LastLine(x: string)
    requires x != "" && !IsLineBreak(x[|x| - 1])
    ensures var lines := SplitLines(x); lines[|lines| - 1] != "" && Last(lines[|lines| - 1]) == Last(x)
    decreases |x|
  {
    var i := RunEnd(x, 0, NotLineBreak);
    if i < |x| {
      var next := LineBreakEnd(x, i);
      var rest := x[next..];
      assert Last(rest) == Last(x);
      LastLine(rest);
    }
  }

  /** Where the line break at `i` ends; "\r\n" is a single break. */
  function LineBreakEnd(x: string, i: nat): (next: nat)
    requires i < |x| && IsLineBreak(x[i]) && !IsLineBreak(x[|x| - 1])
    ensures i < next < |x|
    ensures SplitLines(x) == if i == RunEnd(x, 0, NotLineBreak) then [x[..i]] + SplitLines(x[next..]) else SplitLines(x)
  {
    if x[i] == '\r' && i + 1 < |x| && x[i + 1] == '\n' then i + 2 else i + 1
  }

  /** The last line of a stripped text is not empty and ends in a character that is
      not whitespace. */
  lemma StripLastLine(x: string)
    ensures var lines := SplitLines(Strip(x));
      lines != [] ==> lines[|lines| - 1] != "" && !IsSpace(Last(lines[|lines| - 1]))
  {
    var h := Strip(x);
    if h != "" {
      assert !In(h[|h| - 1], Space);
      LastLine(h);
    }
  }

  /** The last character of a non-empty text. */
  function Last(s: string): char
    requires s != ""
  {
    s[|s| - 1]
  }

  /** `sep.join(parts)` ends with the last part. */
  lemma {:induction false} JoinEndsWithLast(parts: seq<string>, sep: string)
    requires parts != []
    ensures var j := Join(parts, sep); var l := parts[|parts| - 1]; |l| <= |j| && j[|j| - |l|..] == l
    decreases |parts|
  {
    if |parts| > 1 {
      JoinEndsWithLast(parts[1..], sep);
      var rest := Join(parts[1..], sep);
      var j := parts[0] + sep + rest;
      assert j[|j| - |rest|..] == rest;
    }
  }

  /** `sep.join(parts)` ends with the last character of the last part. */
  lemma JoinLastChar(parts: seq<string>, sep: string)
    requires parts != [] && parts[|parts| - 1] != ""
    ensures Join(parts, sep) != "" && Last(Join(parts, sep)) == Last(parts[|parts| - 1])
  {
    JoinEndsWithLast(parts, sep);
  }

  /** Joining lines with "\n" and splitting the result again gives the lines back,
      as long as no line holds a line break and the last line is not empty. */
  lemma {:induction false} SplitLinesJoin(lines: seq<string>)
    requires forall i | 0 <= i < |lines| :: forall k | 0 <= k < |lines[i]| :: !IsLineBreak(lines[i][k])
    requires lines != [] ==> lines[|lines| - 1] != ""
    ensures SplitLines(Join(lines, "\n")) == lines
    decreases |lines|
  {
    if |lines| == 0 {
    } else if |lines| == 1 {
      var s := lines[0];
      assert RunEnd(s, 0, NotLineBreak) == |s|;
    } else {
      var s := Join(lines, "\n");
      var l := lines[0];
      assert s == l + "\n" + Join(lines[1..], "\n");
      assert RunEnd(s, 0, NotLineBreak) == |l| by {
        RunEndAll(s, 0, NotLineBreak);
        assert forall k | 0 <= k < |l| :: s[k] == l[k];
        assert s[|l|] == '\n';
      }
      assert s[..|l|] == l;
      assert s[|l| + 1..] == Join(lines[1..], "\n");
      SplitLinesJoin(lines[1..]);
    }
  }

  /** Every line break of `s` is a lone "\n", as in text that `"\n".join` built from
      lines without breaks. */
  predicate NewlinesOnly(s: string) {
    forall k | 0 <= k < |s| :: IsLineBreak(s[k]) ==> s[k] == '\n'
  }

  /** Lines without breaks joined with "\n" hold no other line break. */
  lemma {:induction false} JoinNewlinesOnly(lines: seq<string>)
    requires forall i | 0 <= i < |lines| :: forall k | 0 <= k < |lines[i]| :: !IsLineBreak(lines[i][k])
    ensures NewlinesOnly(Join(lines, "\n"))
    decreases |lines|
  {
    if |lines| > 1 {
      JoinNewlinesOnly(lines[1..]);
      var l, rest := lines[0], Join(lines[1..], "\n");
      var s := l + "\n" + rest;
      forall k | 0 <= k < |s|
        ensures IsLineBreak(s[k]) ==> s[k] == '\n'
      {
        if k < |l| {
          assert s[k] == l[k];
        } else if k > |l| {
          assert s[k] == rest[k - |l| - 1];
        }
      }
    }
  }

  /** A slice keeps the property. */
  lemma NewlinesSlice(s: string, i: nat, j: nat)
    requires i <= j <= |s| && NewlinesOnly(s)
    ensures NewlinesOnly(s[i..j])
  {
    assert forall k | 0 <= k < j - i :: s[i..j][k] == s[i + k];
  }

  /** Concatenation keeps the property. */
  lemma NewlinesConcat(x: string, y: string)
    requires NewlinesOnly(x) && NewlinesOnly(y)
    ensures NewlinesOnly(x + y)
  {
    assert forall k | |x| <= k < |x + y| :: (x + y)[k] == y[k - |x|];
  }

  /** Splitting a text whose line breaks are lone "\n"s and that does not end in one,
      then joining the lines with "\n", gives the text back. */
  lemma {:induction false} JoinSplitLines(s: string)
    requires NewlinesOnly(s) && (s == "" || !IsLineBreak(Last(s)))
    ensures Join(SplitLines(s), "\n") == s
    decreases |s|
  {
    if s != "" {
      var i := RunEnd(s, 0, NotLineBreak);
      if i < |s| {
        assert s[i] == '\n' && i + 1 < |s|;
        var rest := s[i + 1..];
        assert Join(SplitLines(rest), "\n") == rest by {
          assert Last(rest) == Last(s);
          NewlinesSlice(s, i + 1, |s|);
          JoinSplitLines(rest);
        }
        assert SplitLines(s) == [s[..i]] + SplitLines(rest) && s == s[..i] + "\n" + rest by {
          SplitLinesAtBreak(s, i);
          AroundBreak(s, i);
        }
        JoinAppend([s[..i]], SplitLines(rest), "\n");
      }
    }
  }

  /** A text whose first line break is a lone "\n" splits into its first line and the
      lines of the rest. */
  lemma SplitLinesAtBreak(s: string, i: nat)
    requires i == RunEnd(s, 0, NotLineBreak) && i < |s| && s[i] == '\n'
    ensures SplitLines(s) == [s[..i]] + SplitLines(s[i + 1..])
  {
  }

  /** A text is what comes before position `i`, the character there and what comes
      after it. */
  lemma AroundBreak(s: string, i: nat)
    requires i < |s| && s[i] == '\n'
    ensures s == s[..i] + "\n" + s[i + 1..]
  {
  }

  /** The last `m` lines of a text whose line breaks are lone "\n"s, joined again,
      are the text from a line start `a` on. */
  lemma JoinTail(h: string, m: nat) returns (a: nat)
    requires NewlinesOnly(h) && h != "" && !IsLineBreak(Last(h))
    requires 1 <= m <= |SplitLines(h)|
    ensures var head := SplitLines(h);
      a <= |h| && Join(head[|head| - m..], "\n") == h[a..] && (a == 0 || h[a - 1] == '\n')
  {
    var head := SplitLines(h);
    var tail := head[|head| - m..];
    JoinSplitLines(h);
    if m == |head| {
      assert tail == head;
      a := 0;
    } else {
      var front := head[..|head| - m];
      assert head == front + tail;
      JoinAppend(front, tail, "\n");
      a := |Join(front, "\n")| + 1;
      assert h == Join(front, "\n") + "\n" + Join(tail, "\n");
      assert h[a..] == Join(tail, "\n");
    }
  }

  /** `sep.join` of two non-empty lists puts `sep` between their joins. */
  lemma {:induction false} JoinAppend(a: seq<string>, b: seq<string>, sep: string)
    requires a != [] && b != []
    ensures Join(a + b, sep) == Join(a, sep) + sep + Join(b, sep)
    decreases |a|
  {
    if |a| == 1 {
      assert (a + b)[1..] == b;
    } else {
      assert (a + b)[1..] == a[1..] + b;
      JoinAppend(a[1..], b, sep);
      var x, y, z := Join(a[1..], sep), sep, Join(b, sep);
      assert a[0] + sep + (x + y + z) == (a[0] + sep + x) + y + z;
    }
  }

  /** Every line of lines joined with "\n" is one of those lines, when none of them
      holds a line break. */
  lemma {:induction false} JoinLinesAmong(lines: seq<string>)
    requires forall i | 0 <= i < |lines| :: forall k | 0 <= k < |lines[i]| :: !IsLineBreak(lines[i][k])
    ensures forall l | l in SplitLines(Join(lines, "\n")) :: l in lines
    decreases |lines|
  {
    if |lines| == 1 {
      if lines[0] != "" {
        SplitLinesOne(lines[0]);
      }
    } else if |lines| > 1 {
      var s := Join(lines, "\n");
      var l := lines[0];
      var rest := Join(lines[1..], "\n");
      assert s == l + "\n" + rest;
      assert RunEnd(s, 0, NotLineBreak) == |l| by {
        assert forall k | 0 <= k < |l| :: s[k] == l[k];
        RunEndExact(s, 0, |l|, NotLineBreak);
      }
      assert s[..|l|] == l;
      assert s[|l| + 1..] == rest;
      assert SplitLines(s) == [l] + SplitLines(rest);
      JoinLinesAmong(lines[1..]);
    }
  }

  /** Where the first line of `s` ends. */
  function LineEnd(s: string): (i: nat)
    ensures i <= |s|
    ensures i < |s| ==> IsLineBreak(s[i])
  {
    RunEnd(s, 0, NotLineBreak)
  }

  /** No line break comes before the end of the first line. */
  lemma LineEndAll(s: string)
    ensures forall k | 0 <= k < LineEnd(s) :: !IsLineBreak(s[k])
  {
    RunEndAll(s, 0, NotLineBreak);
  }

  /** Where the second line of `s` starts: "\r\n" is one line break. */
  function LineNext(s: string): (n: nat)
    requires LineEnd(s) < |s|
    ensures LineEnd(s) < n <= |s|
  {
    var i := LineEnd(s);
    if s[i] == '\r' && i + 1 < |s| && s[i + 1] == '\n' then i + 2 else i + 1
  }

  /** Every line of `s` passes `ok`; walked line by line as `splitlines()` cuts
      them. */
  predicate LinesOk(s: string, ok: string -> bool)
    decreases |s|
  {
    s == "" || (ok(s[..LineEnd(s)]) && (LineEnd(s) == |s| || LinesOk(s[LineNext(s)..], ok)))
  }

  /** The text holds whitespace only. */
  predicate AllSpace(s: string) {
    forall k | 0 <= k < |s| :: IsSpace(s[k])
  }

  /** The line from position `p` on; a name of its own, so that the facts below
      about `ok` are used only where a proof asks for them. */
  function From(l: string, p: nat): (r: string)
    requires p <= |l|
    ensures |r| == |l| - p && forall k | 0 <= k < |r| :: r[k] == l[p + k]
  {
    l[p..]
  }

  /** The line before position `p`. */
  function UpTo(l: string, p: nat): (r: string)
    requires p <= |l|
    ensures |r| == p && forall k | 0 <= k < p :: r[k] == l[k]
  {
    l[..p]
  }

  /** `ok` does not look at whitespace in front of a line. */
  ghost predicate FrontBlind(ok: string -> bool) {
    forall l: string, p: nat | p <= |l| && AllSpace(l[..p]) && ok(l) :: ok(From(l, p))
  }

  /** `ok` does not look at whitespace at the end of a line. */
  ghost predicate BackBlind(ok: string -> bool) {
    forall l: string, p: nat | p <= |l| && AllSpace(l[p..]) && ok(l) :: ok(UpTo(l, p))
  }

  /** The line walk judges exactly the lines `splitlines()` gives. */
  lemma {:induction false} LinesOkAll(s: string, ok: string -> bool)
    ensures LinesOk(s, ok) <==> forall l | l in SplitLines(s) :: ok(l)
    decreases |s|
  {
    if s != "" {
      if LineEnd(s) == |s| {
        LineEndAll(s);
        SplitLinesOne(s);
        assert s[..LineEnd(s)] == s;
      } else {
        SplitLinesNext(s);
        LinesOkAll(s[LineNext(s)..], ok);
        AllInCons(s[..LineEnd(s)], SplitLines(s[LineNext(s)..]), ok);
      }
    }
  }

  /** A text with a line break splits into its first line and the lines after the
      break. */
  lemma SplitLinesNext(s: string)
    requires LineEnd(s) < |s|
    ensures SplitLines(s) == [s[..LineEnd(s)]] + SplitLines(s[LineNext(s)..])
  {
  }

  /** Every line of `[first] + rest` passes `ok` when `first` and every line of `rest`
      do. */
  lemma AllInCons(first: string, rest: seq<string>, ok: string -> bool)
    ensures (forall l | l in [first] + rest :: ok(l)) <==> ok(first) && forall l | l in rest :: ok(l)
  {
  }

  /** The empty text has no line. */
  lemma LinesOkEmpty(ok: string -> bool)
    ensures LinesOk("", ok)
  {
  }

  /** A text without a line break is judged by itself. */
  lemma LinesOkOne(s: string, ok: string -> bool)
    requires s != "" && LineEnd(s) == |s|
    ensures LinesOk(s, ok) <==> ok(s)
  {
    assert s[..LineEnd(s)] == s;
  }

  /** A text with a line break is judged by its first line and the rest. */
  lemma LinesOkStep(s: string, ok: string -> bool)
    requires LineEnd(s) < |s|
    ensures LinesOk(s, ok) <==> ok(s[..LineEnd(s)]) && LinesOk(s[LineNext(s)..], ok)
  {
  }

  /** A text that opens with "\n" has an empty first line. */
  lemma LinesOkNewline(s: string, ok: string -> bool)
    requires ok("") && LinesOk(s, ok)
    ensures LinesOk("\n" + s, ok)
  {
    var z := "\n" + s;
    assert LineEnd(z) == 0 && LineNext(z) == 1;
    assert z[..0] == "";
    assert z[1..] == s;
  }

  /** Joining lines that hold no line break and pass `ok` gives a text whose lines
      all pass `ok`. */
  lemma JoinLinesOk(lines: seq<string>, ok: string -> bool)
    requires forall i | 0 <= i < |lines| :: forall k | 0 <= k < |lines[i]| :: !IsLineBreak(lines[i][k])
    requires forall i | 0 <= i < |lines| :: ok(lines[i])
    ensures LinesOk(Join(lines, "\n"), ok)
  {
    JoinLinesAmong(lines);
    LinesOkAll(Join(lines, "\n"), ok);
  }

  /** Joining lines that hold no line break and pass `ok`, then stripping, gives a
      text whose lines all pass `ok`. */
  lemma JoinStripLinesOk(lines: seq<string>, ok: string -> bool)
    requires forall i | 0 <= i < |lines| :: forall k | 0 <= k < |lines[i]| :: !IsLineBreak(lines[i][k])
    requires forall i | 0 <= i < |lines| :: ok(lines[i])
    requires ok("") && FrontBlind(ok) && BackBlind(ok)
    ensures LinesOk(Strip(Join(lines, "\n")), ok)
  {
    JoinLinesOk(lines, ok);
    StripLinesOk(Join(lines, "\n"), ok);
  }

  /** Cutting the front off the first line moves where the lines break. */
  lemma LineSuffix(s: string, p: nat)
    requires p <= LineEnd(s)
    ensures LineEnd(s[p..]) == LineEnd(s) - p
    ensures LineEnd(s) < |s| ==> LineNext(s[p..]) == LineNext(s) - p
  {
    LineEndAll(s);
    RunEndExact(s[p..], 0, LineEnd(s) - p, NotLineBreak);
  }

  /** Cutting the text off inside its first line leaves one line. */
  lemma LinePrefixFirst(s: string, p: nat)
    requires p <= LineEnd(s)
    ensures LineEnd(s[..p]) == p
  {
    LineEndAll(s);
    RunEndExact(s[..p], 0, p, NotLineBreak);
  }

  /** Cutting the text off after its first line keeps where that line ends. */
  lemma LinePrefixLater(s: string, p: nat)
    requires LineEnd(s) < p <= |s|
    ensures LineEnd(s[..p]) == LineEnd(s)
    ensures LineNext(s) <= p ==> LineNext(s[..p]) == LineNext(s)
    ensures p < LineNext(s) ==> LineNext(s[..p]) == p
  {
    LineEndAll(s);
    RunEndExact(s[..p], 0, LineEnd(s), NotLineBreak);
  }

  /** Appending "\n" and more text after `x` keeps where the first line breaks. */
  lemma LineAppend(x: string, y: string)
    requires x != "" && Last(x) != '\r'
    ensures LineEnd(x + "\n" + y) == LineEnd(x)
    ensures LineEnd(x) == |x| ==> LineNext(x + "\n" + y) == |x| + 1
    ensures LineEnd(x) < |x| ==> LineNext(x + "\n" + y) == LineNext(x)
  {
    LineEndAll(x);
    RunEndExact(x + "\n" + y, 0, LineEnd(x), NotLineBreak);
  }

  /** Dropping whitespace at the front of the first line drops it from that line
      and keeps the lines after it. */
  lemma SuffixFirstShape(s: string, p: nat)
    requires p <= LineEnd(s) && p < |s|
    requires forall k | 0 <= k < p :: IsSpace(s[k])
    ensures LineEnd(s[p..]) == LineEnd(s) - p
    ensures s[p..][..LineEnd(s[p..])] == s[..LineEnd(s)][p..]
    ensures AllSpace(s[..LineEnd(s)][..p])
    ensures LineEnd(s) < |s| ==> LineNext(s[p..]) == LineNext(s) - p
    ensures LineEnd(s) < |s| ==> s[p..][LineNext(s[p..])..] == s[LineNext(s)..]
  {
    LineSuffix(s, p);
  }

  /** Dropping whitespace at the front of the first line keeps every line passing
      `ok`. */
  lemma SuffixFirstLine(s: string, p: nat, ok: string -> bool)
    requires p <= LineEnd(s) && p < |s|
    requires forall k | 0 <= k < p :: IsSpace(s[k])
    requires FrontBlind(ok) && LinesOk(s, ok)
    ensures LinesOk(s[p..], ok)
  {
    SuffixFirstShape(s, p);
    assert From(s[..LineEnd(s)], p) == s[p..][..LineEnd(s[p..])];
    if LineEnd(s) < |s| {
      LinesOkStep(s, ok);
      LinesOkStep(s[p..], ok);
    } else {
      LinesOkOne(s, ok);
      LinesOkOne(s[p..], ok);
    }
  }

  /** Dropping the text before a line start, and whitespace after it, keeps every
      line passing `ok`. */
  lemma {:induction false} SuffixLinesOk(s: string, b: nat, p: nat, ok: string -> bool)
    requires b <= p <= |s| && (b == 0 || IsLineBreak(s[b - 1]))
    requires forall k | b <= k < p :: IsSpace(s[k])
    requires ok("") && FrontBlind(ok) && LinesOk(s, ok)
    ensures LinesOk(s[p..], ok)
    decreases |s|, 1
  {
    if p == |s| {
      assert s[p..] == "";
    } else if p <= LineEnd(s) {
      LineEndAll(s);
      SuffixFirstLine(s, p, ok);
    } else {
      SuffixLater(s, b, p, ok);
    }
  }

  /** The last lines of a text whose lines pass `ok`, joined again, pass `ok`. */
  lemma TailLinesOk(x: string, tail: seq<string>, ok: string -> bool)
    requires LinesOk(x, ok)
    requires var head := SplitLines(x); |tail| <= |head| && tail == head[|head| - |tail|..]
    ensures LinesOk(Join(tail, "\n"), ok)
  {
    var head := SplitLines(x);
    LinesOkAll(x, ok);
    forall i | 0 <= i < |tail|
      ensures tail[i] in head
    {
      assert tail[i] == head[|head| - |tail| + i];
    }
    JoinLinesOk(tail, ok);
  }

  /** Where a cut past the first line break leaves the text: right after a "\r" that
      a "\n" follows, or inside the lines after the break, with the line start `b`
      moved to `b'` and the whitespace before the cut kept. */
  lemma SuffixLaterShape(s: string, b: nat, p: nat, b': nat)
    requires LineEnd(s) < p <= |s| && b <= p && (b == 0 || IsLineBreak(s[b - 1]))
    requires forall k | b <= k < p :: IsSpace(s[k])
    requires b' == if b <= LineNext(s) then 0 else b - LineNext(s)
    ensures LineNext(s) <= p ==> s[p..] == s[LineNext(s)..][p - LineNext(s)..]
    ensures LineNext(s) <= p ==> b' <= p - LineNext(s)
    ensures b' > 0 ==> IsLineBreak(s[LineNext(s)..][b' - 1])
    ensures forall k | b' <= k < p - LineNext(s) :: IsSpace(s[LineNext(s)..][k])
  {
    var next := LineNext(s);
    forall k | b' <= k < p - next
      ensures IsSpace(s[next..][k])
    {
      assert s[next..][k] == s[next + k];
    }
  }

  /** `SuffixLinesOk` when the cut lies past the first line break. */
  lemma {:induction false} SuffixLater(s: string, b: nat, p: nat, ok: string -> bool)
    requires LineEnd(s) < p <= |s| && b <= p && (b == 0 || IsLineBreak(s[b - 1]))
    requires forall k | b <= k < p :: IsSpace(s[k])
    requires ok("") && FrontBlind(ok) && LinesOk(s, ok)
    ensures LinesOk(s[p..], ok)
    decreases |s|, 0
  {
    var next := LineNext(s);
    var b' := if b <= next then 0 else b - next;
    SuffixLaterShape(s, b, p, b');
    LinesOkStep(s, ok);
    if p < next {
      SuffixInsideBreak(s, p, ok);
    } else {
      SuffixLinesOk(s[next..], b', p - next, ok);
    }
  }

  /** A cut between the "\r" and the "\n" of a line break leaves an empty line and
      the lines after the break. */
  lemma SuffixInsideBreak(s: string, p: nat, ok: string -> bool)
    requires LineEnd(s) < p <= |s| && p < LineNext(s)
    requires ok("") && LinesOk(s, ok)
    ensures LinesOk(s[p..], ok)
  {
    assert s[p..] == "\n" + s[LineNext(s)..];
    LinesOkStep(s, ok);
    LinesOkNewline(s[LineNext(s)..], ok);
  }

  /** Cutting the first line off where only whitespace follows in it keeps every line
      passing `ok`. */
  lemma PrefixFirstLine(s: string, p: nat, e: nat, ok: string -> bool)
    requires 0 < p <= LineEnd(s) && p <= e <= |s| && (e == |s| || IsLineBreak(s[e]))
    requires forall k | p <= k < e :: IsSpace(s[k])
    requires BackBlind(ok) && LinesOk(s, ok)
    ensures LinesOk(s[..p], ok)
  {
    var u := s[..p];
    var i := LineEnd(s);
    var line := s[..i];
    LinePrefixFirst(s, p);
    assert ok(line) by {
      if i < |s| {
        LinesOkStep(s, ok);
      } else {
        LinesOkOne(s, ok);
      }
    }
    assert ok(u) by {
      LineEndAll(s);
      assert i <= e;
      assert forall k | p <= k < i :: line[k] == s[k];
      assert AllSpace(line[p..]);
      assert u == UpTo(line, p);
    }
    LinesOkOne(u, ok);
  }

  /** Dropping whitespace that runs up to a line break, and the text after it, keeps
      every line passing `ok`. */
  lemma {:induction false} PrefixLinesOk(s: string, p: nat, e: nat, ok: string -> bool)
    requires p <= e <= |s| && (e == |s| || IsLineBreak(s[e]))
    requires forall k | p <= k < e :: IsSpace(s[k])
    requires BackBlind(ok) && LinesOk(s, ok)
    ensures LinesOk(s[..p], ok)
    decreases |s|, 1
  {
    if p == 0 {
      assert s[..p] == "";
    } else if p <= LineEnd(s) {
      PrefixFirstLine(s, p, e, ok);
    } else {
      PrefixLater(s, p, e, ok);
    }
  }

  /** Where a cut past the first line break leaves the text: the first line, and the
      lines after the break cut at the same place. */
  lemma PrefixLaterShape(s: string, p: nat, e: nat)
    requires LineEnd(s) < p <= e <= |s| && (e == |s| || IsLineBreak(s[e]))
    requires forall k | p <= k < e :: IsSpace(s[k])
    ensures LineEnd(s[..p]) == LineEnd(s) < p
    ensures s[..p][..LineEnd(s)] == s[..LineEnd(s)]
    ensures p < LineNext(s) ==> s[..p][LineNext(s[..p])..] == ""
    ensures LineNext(s) <= p ==> s[..p][LineNext(s[..p])..] == s[LineNext(s)..][..p - LineNext(s)]
    ensures LineNext(s) <= p ==> e == |s| || IsLineBreak(s[LineNext(s)..][e - LineNext(s)])
    ensures forall k: nat | p <= LineNext(s) + k < e :: IsSpace(s[LineNext(s)..][k])
  {
    LinePrefixLater(s, p);
  }

  /** `PrefixLinesOk` when the cut lies past the first line break. */
  lemma {:induction false} PrefixLater(s: string, p: nat, e: nat, ok: string -> bool)
    requires LineEnd(s) < p <= e <= |s| && (e == |s| || IsLineBreak(s[e]))
    requires forall k | p <= k < e :: IsSpace(s[k])
    requires BackBlind(ok) && LinesOk(s, ok)
    ensures LinesOk(s[..p], ok)
    decreases |s|, 0
  {
    var next := LineNext(s);
    PrefixLaterShape(s, p, e);
    LinesOkStep(s, ok);
    if next <= p {
      PrefixLinesOk(s[next..], p - next, e - next, ok);
    }
    LinesOkStep(s[..p], ok);
  }

  /** Stripping keeps every line passing `ok`, when `ok` accepts the empty line and
      ignores whitespace at either end of a line. */
  lemma StripLinesOk(s: string, ok: string -> bool)
    requires ok("") && FrontBlind(ok) && BackBlind(ok) && LinesOk(s, ok)
    ensures LinesOk(Strip(s), ok)
  {
    var a := RunEnd(s, 0, Space);
    var c := RunStart(s, a, |s|, Space);
    RunEndAll(s, 0, Space);
    RunStartAll(s, a, |s|, Space);
    PrefixLinesOk(s, c, |s|, ok);
    SuffixLinesOk(s[..c], 0, a, ok);
    assert Strip(s) == s[..c][a..];
  }

  /** The text from a newline on, stripped, keeps every line passing `ok`. */
  lemma FromBreakLinesOk(s: string, start: nat, ok: string -> bool)
    requires start < |s| && s[start] == '\n'
    requires ok("") && FrontBlind(ok) && BackBlind(ok) && LinesOk(s, ok)
    ensures LinesOk(Strip(s[start..]), ok)
  {
    SuffixLinesOk(s, start + 1, start + 1, ok);
    assert s[start..] == "\n" + s[start + 1..];
    LinesOkNewline(s[start + 1..], ok);
    StripLinesOk(s[start..], ok);
  }

  /** The text before a newline, stripped, keeps every line passing `ok`. */
  lemma UpToBreakLinesOk(s: string, start: nat, ok: string -> bool)
    requires start < |s| && s[start] == '\n'
    requires ok("") && FrontBlind(ok) && BackBlind(ok) && LinesOk(s, ok)
    ensures LinesOk(Strip(s[..start]), ok)
  {
    PrefixLinesOk(s, start, start, ok);
    StripLinesOk(s[..start], ok);
  }

  /** Two texts whose lines pass `ok`, a blank line between them, stripped, give
      one whose lines pass `ok`. */
  lemma BlankJoinLinesOk(x: string, y: string, ok: string -> bool)
    requires x != "" && Last(x) != '\r'
    requires ok("") && FrontBlind(ok) && BackBlind(ok) && LinesOk(x, ok) && LinesOk(y, ok)
    ensures LinesOk(Strip(x + "\n\n" + y), ok)
  {
    LinesOkNewline(y, ok);
    ConcatLinesOk(x, "\n" + y, ok);
    assert x + "\n" + ("\n" + y) == x + "\n\n" + y;
    StripLinesOk(x + "\n\n" + y, ok);
  }

  /** Two texts whose lines pass `ok`, joined by a newline, give one; the first must
      not end in a carriage return, which would merge with the newline. */
  lemma {:induction false} ConcatLinesOk(x: string, y: string, ok: string -> bool)
    requires x == "" || Last(x) != '\r'
    requires ok("") && LinesOk(x, ok) && LinesOk(y, ok)
    ensures LinesOk(x + "\n" + y, ok)
    decreases |x|, 1
  {
    var z := x + "\n" + y;
    if x == "" {
      assert z == "\n" + y;
      LinesOkNewline(y, ok);
    } else if LineEnd(x) == |x| {
      LineAppend(x, y);
      LinesOkOne(x, ok);
      assert z[..|x|] == x;
      assert z[|x| + 1..] == y;
      LinesOkStep(z, ok);
    } else {
      ConcatLater(x, y, ok);
    }
  }

  /** Appending "\n" and more text after a text with a line break keeps its first
      line and appends to the rest. */
  lemma ConcatLaterShape(x: string, y: string)
    requires LineEnd(x) < |x| && Last(x) != '\r'
    ensures LineEnd(x + "\n" + y) == LineEnd(x) && LineNext(x + "\n" + y) == LineNext(x)
    ensures (x + "\n" + y)[..LineEnd(x)] == x[..LineEnd(x)]
    ensures (x + "\n" + y)[LineNext(x)..] == x[LineNext(x)..] + "\n" + y
    ensures x[LineNext(x)..] == "" || Last(x[LineNext(x)..]) != '\r'
  {
    LineAppend(x, y);
  }

  /** `ConcatLinesOk` when the first text holds a line break. */
  lemma {:induction false} ConcatLater(x: string, y: string, ok: string -> bool)
    requires LineEnd(x) < |x| && Last(x) != '\r'
    requires ok("") && LinesOk(x, ok) && LinesOk(y, ok)
    ensures LinesOk(x + "\n" + y, ok)
    decreases |x|, 0
  {
    ConcatLaterShape(x, y);
    LinesOkStep(x, ok);
    ConcatLinesOk(x[LineNext(x)..], y, ok);
    LinesOkStep(x + "\n" + y, ok);
  }


  /** Python's `str(n)` for a natural number. */
  function Decimal(n: nat): (r: string)
    ensures r != ""
    ensures forall k | 0 <= k < |r| :: IsDigit(r[k])
    decreases n
  {
    var d := [(n % 10 + '0' as int) as char];
    if n < 10 then d else Decimal(n / 10) + d
  }

  /** The value of a string of decimal digits. */
  function DigitsValue(s: string): nat
    requires forall k | 0 <= k < |s| :: IsDigit(s[k])
    decreases |s|
  {
    if s == "" then 0
    else
      var last := s[|s| - 1];
      assert IsDigit(last);
      DigitsValue(s[..|s| - 1]) * 10 + (last as int - '0' as int)
  }

  /** Reading back the decimal form of `n` gives `n`, so distinct numbers have distinct forms. */
  lemma {:induction false} DecimalRoundTrip(n: nat)
    ensures DigitsValue(Decimal(n)) == n
    decreases n
  {
    var r := Decimal(n);
    if n >= 10 {
      DecimalRoundTrip(n / 10);
      assert r[..|r| - 1] == Decimal(n / 10);
    }
  }

  lemma DecimalInjective(m: nat, n: nat)
    requires Decimal(m) == Decimal(n)
    ensures m == n
  {
    DecimalRoundTrip(m);
    DecimalRoundTrip(n);
  }
}
