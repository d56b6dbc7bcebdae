/** The file name rule of `export_to_pdf`: the title with every run of characters
    a file name should not hold replaced by a single "_". */
module PdfExport {
  import Text

  /** The characters `[a-zA-Z0-9_\-]` a safe title keeps. */
  predicate FileNameChar(c: char) {
    ('a' <= c <= 'z') || ('A' <= c <= 'Z') || ('0' <= c <= '9') || c == '_' || c == '-'
  }

  predicate AllFileNameChars(s: string) {
    forall k | 0 <= k < |s| :: FileNameChar(s[k])
  }

  /** The end of the run of characters outside the file-name set that starts at `i`. */
  function UnsafeRunEnd(s: string, i: nat): (j: nat)
    requires i <= |s|
    ensures i <= j <= |s|
    ensures j == |s| || FileNameChar(s[j])
    decreases |s| - i
  {
    if i == |s| || FileNameChar(s[i]) then i else UnsafeRunEnd(s, i + 1)
  }

  /** `re.sub(r"[^a-zA-Z0-9_\-]+", "_", s)`. */
  function Squash(s: string): (r: string)
    ensures |r| <= |s|
    ensures AllFileNameChars(r)
    decreases |s|
  {
    if s == "" then ""
    else if FileNameChar(s[0]) then [s[0]] + Squash(s[1..])
    else
      var j := UnsafeRunEnd(s, 0);
      "_" + Squash(s[j..])
  }

  /** `re.sub(r"[^a-zA-Z0-9_\-]+", "_", title or "learning_path")`. */
  function SafeTitle(title: string): (r: string)
    ensures r != ""
  {
    Squash(if title == "" then "learning_path" else title)
  }

  /** A text that only holds file-name characters is left as it is. */
  lemma {:induction false} SquashKeepsSafe(s: string)
    requires AllFileNameChars(s)
    ensures Squash(s) == s
    decreases |s|
  {
    if s != "" {
      SquashKeepsSafe(s[1..]);
    }
  }

  /** Squashing keeps a non-empty text non-empty. */
  lemma SquashNonEmpty(s: string)
    requires s != ""
    ensures Squash(s) != ""
  {
  }

  /** A safe title only holds file-name characters, and making it safe again
      changes nothing. */
  lemma SafeTitleIdempotent(title: string)
    ensures AllFileNameChars(SafeTitle(title))
    ensures SafeTitle(SafeTitle(title)) == SafeTitle(title)
  {
    SquashKeepsSafe(SafeTitle(title));
  }

  /** A run of unsafe characters becomes one "_" wherever it stands: between safe
      text and the rest of the title. */
  lemma {:induction false} SquashRun(a: string, u: string, b: string)
    requires AllFileNameChars(a) && u != [] && forall k | 0 <= k < |u| :: !FileNameChar(u[k])
    requires b == "" || FileNameChar(b[0])
    ensures Squash(a + u + b) == a + "_" + Squash(b)
    decreases |a|
  {
    var s := a + u + b;
    if a == "" {
      assert s == u + b;
      SquashAfterRun(u, b);
    } else {
      assert s[0] == a[0] && s[1..] == a[1..] + u + b;
      SquashRun(a[1..], u, b);
      assert Squash(s) == [a[0]] + Squash(s[1..]);
      Text.ConsConcat(a[0], a[1..], "_", Squash(b));
      assert a == [a[0]] + a[1..];
    }
  }

  /** A text that opens with a run of unsafe characters. */
  lemma SquashAfterRun(u: string, b: string)
    requires u != [] && forall k | 0 <= k < |u| :: !FileNameChar(u[k])
    requires b == "" || FileNameChar(b[0])
    ensures Squash(u + b) == "_" + Squash(b)
  {
    var s := u + b;
    UnsafeRunAcross(u, b, 0);
    assert s[|u|..] == b;
  }

  /** The unsafe run over `u` stops where `b` begins. */
  lemma {:induction false} UnsafeRunAcross(u: string, b: string, i: nat)
    requires i <= |u| && forall k | 0 <= k < |u| :: !FileNameChar(u[k])
    requires b == "" || FileNameChar(b[0])
    ensures UnsafeRunEnd(u + b, i) == |u|
    decreases |u| - i
  {
    var s := u + b;
    if i < |u| {
      assert s[i] == u[i];
      UnsafeRunAcross(u, b, i + 1);
    } else if b != "" {
      assert s[i] == b[0];
    }
  }
}
