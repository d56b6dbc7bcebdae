/** The regular expressions of the learning-path pipeline. Each one is written out
    as a matcher that says whether, and where, Python's backtracking engine ends a
    match that starts at a given position. On top of the matchers sit the leftmost
    search (`re.search`), substitution (`re.sub`), splitting (`re.split`) and the
    list of successive matches (`re.finditer`). Every pattern here is non-empty and,
    except for the whitespace tail of `TopicLabel`, deterministic: each greedy run
    is followed by a character outside the run's class, so backtracking can only
    shorten a run into a failure. */
module Patterns {
  import opened Text

  /** Where a match ends, and where the capture group that the caller reads starts
      (the group runs to the end of the match). */
  datatype Hit = Hit(group: nat, end: nat)

  datatype Pattern =
    | Fence           // ```[\s\S]*?```
    | ToolError       // Error:\s*ToolException\([\s\S]*?\)\s*             (IGNORECASE)
    | DataJson        // \{\s*"data"\s*:\s*\{[\s\S]*?\}\s*\}\s*
    | AnchoredDay     // (^|\n)\s*Day\s+\d+\s*[:\-]                         (IGNORECASE)
    | InlineDay       // \s+(Day\s+\d+\s*[:\-])                             (IGNORECASE)
    | DayBreak        // \n(?=\s*Day\s+\d+\s*[:\-])                         (IGNORECASE)
    | TopicLabel      // Topic\s*:\s*([^\n]+)                               (IGNORECASE)
    | LabelledLink    // YouTube\s*Link(?:\s*\d+)?\s*:?\s*(https?://\S+)    (IGNORECASE)
    | BareUrl         // https?://\S+
    | QuestionsLabel  // Practice\s*Questions\s*\(\s*10\s*\)\s*:?\s*(.*)$   (IGNORECASE, DOTALL)
    | LooseDay        // ^\s*Day\s+\d+\s*[:\-]?.*$                          (IGNORECASE, MULTILINE)

  predicate IsSeparator(c: char) { c == ':' || c == '-' }

  /** The character `c` at `k`. */
  predicate CharAt(s: string, k: nat, c: char) { k < |s| && s[k] == c }

  /** A digit at `k`. */
  predicate DigitAt(s: string, k: nat) { k < |s| && IsDigit(s[k]) }

  /** `[:\-]` at `k`. */
  predicate SeparatorAt(s: string, k: nat) { k < |s| && IsSeparator(s[k]) }

  /** "day" at `i`, in any case. */
  predicate IsDayWord(s: string, i: nat) {
    i + 3 <= |s| && Lower(s[i]) == 'd' && Lower(s[i + 1]) == 'a' && Lower(s[i + 2]) == 'y'
  }

  /** `Day\s+\d+` (case-insensitive) at `i`: the end of the day number. */
  function DayNumberAt(s: string, i: nat): (r: Option<nat>)
    requires i <= |s|
    ensures r.Some? <==> IsDayWord(s, i) && i + 3 < |s| && IsSpace(s[i + 3]) && DigitAt(s, RunEnd(s, i + 3, Space))
    ensures r.Some? ==> r.value == RunEnd(s, RunEnd(s, i + 3, Space), Digit)
    ensures r.Some? ==> i + 5 <= r.value <= |s| && IsDigit(s[r.value - 1])
    ensures r.Some? ==> r.value == |s| || !IsDigit(s[r.value])
  {
    if !IsDayWord(s, i) || i + 3 == |s| || !IsSpace(s[i + 3]) then None
    else
      var b := RunEnd(s, i + 3, Space);
      if !DigitAt(s, b) then None
      else RunEndAll(s, b, Digit); Some(RunEnd(s, b, Digit))
  }

  /** `Day\s+\d+\s*[:\-]` (case-insensitive) at `i`: the end of the separator. */
  function DayHeaderAt(s: string, i: nat): (r: Option<nat>)
    requires i <= |s|
    ensures r.Some? <==> DayNumberAt(s, i).Some? && SeparatorAt(s, RunEnd(s, DayNumberAt(s, i).value, Space))
    ensures r.Some? ==> r.value == RunEnd(s, DayNumberAt(s, i).value, Space) + 1
    ensures r.Some? ==> i + 6 <= r.value <= |s| && IsDayWord(s, i) && IsSeparator(s[r.value - 1])
  {
    match DayNumberAt(s, i)
    case None => None
    case Some(n) =>
      var d := RunEnd(s, n, Space);
      if SeparatorAt(s, d) then Some(d + 1) else None
  }

  /** A day number that ends inside the window `c[lo..hi]` is found at the same
      place in the window. */
  lemma DayNumberWindow(c: string, lo: nat, hi: nat, i: nat)
    requires lo <= i <= hi <= |c| && DayNumberAt(c, i).Some? && DayNumberAt(c, i).value <= hi
    ensures DayNumberAt(c[lo..hi], i - lo) == Some(DayNumberAt(c, i).value - lo)
  {
    var w := c[lo..hi];
    var j := i - lo;
    assert IsDayWord(w, j) by {
      assert w[j] == c[i] && w[j + 1] == c[i + 1] && w[j + 2] == c[i + 2];
    }
    assert w[j + 3] == c[i + 3];
    var b := RunEnd(c, i + 3, Space);
    RunEndWindow(c, lo, hi, i + 3, Space);
    assert RunEnd(w, j + 3, Space) == b - lo;
    assert w[b - lo] == c[b];
    RunEndWindow(c, lo, hi, b, Digit);
    assert RunEnd(w, b - lo, Digit) == DayNumberAt(c, i).value - lo;
  }

  /** A day header inside the window `c[lo..hi]` is found at the same place in the
      window. */
  lemma DayHeaderWindow(c: string, lo: nat, hi: nat, i: nat)
    requires lo <= i <= hi <= |c| && DayHeaderAt(c, i).Some? && DayHeaderAt(c, i).value <= hi
    ensures DayHeaderAt(c[lo..hi], i - lo) == Some(DayHeaderAt(c, i).value - lo)
  {
    var w := c[lo..hi];
    var n := DayNumberAt(c, i).value;
    var d := RunEnd(c, n, Space);
    DayNumberWindow(c, lo, hi, i);
    RunEndWindow(c, lo, hi, n, Space);
    assert w[d - lo] == c[d];
  }

  /** A day number of the window `c[lo..hi]` that ends before the window does is one
      of `c`, at the same place. */
  lemma DayNumberFromWindow(c: string, lo: nat, hi: nat, j: nat)
    requires lo <= hi <= |c| && j <= hi - lo && DayNumberAt(c[lo..hi], j).Some?
    requires DayNumberAt(c[lo..hi], j).value < hi - lo
    ensures DayNumberAt(c, lo + j) == Some(lo + DayNumberAt(c[lo..hi], j).value)
  {
    var w := c[lo..hi];
    var i := lo + j;
    var b := RunEnd(w, j + 3, Space);
    assert IsDayWord(c, i) by {
      assert c[i] == w[j] && c[i + 1] == w[j + 1] && c[i + 2] == w[j + 2];
    }
    assert c[i + 3] == w[j + 3];
    RunEndFromWindow(c, lo, hi, i + 3, Space);
    assert c[lo + b] == w[b];
    RunEndFromWindow(c, lo, hi, lo + b, Digit);
  }

  /** A day header of the window `c[lo..hi]` is one of `c`, at the same place. */
  lemma DayHeaderFromWindow(c: string, lo: nat, hi: nat, j: nat)
    requires lo <= hi <= |c| && j <= hi - lo && DayHeaderAt(c[lo..hi], j).Some?
    ensures DayHeaderAt(c, lo + j) == Some(lo + DayHeaderAt(c[lo..hi], j).value)
  {
    var w := c[lo..hi];
    var n := DayNumberAt(w, j).value;
    var d := RunEnd(w, n, Space);
    DayNumberFromWindow(c, lo, hi, j);
    RunEndFromWindow(c, lo, hi, lo + n, Space);
    assert c[lo + d] == w[d];
  }

  /** "http" at `p`, up to case when `ci`. */
  predicate HttpAt(s: string, p: nat, ci: bool) {
    if ci then CiLitAt(s, p, "http") else LitAt(s, p, "http")
  }

  /** "s" at `k`, up to case when `ci`. */
  predicate LetterSAt(s: string, k: nat, ci: bool) {
    k < |s| && (if ci then Lower(s[k]) else s[k]) == 's'
  }

  /** "://" at `k`, followed by the first character of `\S+`. */
  predicate SchemeRestAt(s: string, k: nat) {
    LitAt(s, k, "://") && k + 3 < |s| && !IsSpace(s[k + 3])
  }

  /** `https?://\S+` at `p`, with the letters compared up to case when `ci`. The
      optional "s" is taken when it is there, and `\S+` runs to the next whitespace. */
  function UrlAt(s: string, p: nat, ci: bool): (r: Option<nat>)
    requires p <= |s|
    ensures r.Some? <==> HttpAt(s, p, ci) && (SchemeRestAt(s, p + 4) || (LetterSAt(s, p + 4, ci) && SchemeRestAt(s, p + 5)))
    ensures r.Some? ==> r.value == RunEnd(s, if LetterSAt(s, p + 4, ci) then p + 8 else p + 7, NonSpace)
    ensures r.Some? ==> p + 8 <= r.value <= |s|
    ensures r.Some? ==> forall k | p <= k < r.value :: !IsSpace(s[k])
    ensures r.Some? ==> r.value == |s| || IsSpace(s[r.value])
  {
    if !HttpAt(s, p, ci) then None
    else
      var a := if LetterSAt(s, p + 4, ci) then p + 5 else p + 4;
      if !SchemeRestAt(s, a) then None
      else
        UrlHeadNotSpace(s, p, ci, a);
        RunEndAll(s, a + 3, NonSpace);
        Some(RunEnd(s, a + 3, NonSpace))
  }

  /** What a URL match spans: "http" in any case, at least a scheme and "://" and
      one more character, and no whitespace. */
  predicate IsUrl(u: string) {
    8 <= |u| && CiLitAt(u, 0, "http") && forall k | 0 <= k < |u| :: !IsSpace(u[k])
  }

  /** The text a URL match spans is a URL. */
  lemma UrlSpan(s: string, p: nat, ci: bool)
    requires p <= |s| && UrlAt(s, p, ci).Some?
    ensures IsUrl(s[p..UrlAt(s, p, ci).value])
  {
    var u := s[p..UrlAt(s, p, ci).value];
    forall k | 0 <= k < 4 ensures Lower(u[k]) == "http"[k] {
      assert u[k] == s[p + k];
      if !ci {
        assert s[p..p + 4][k] == s[p + k];
      }
    }
  }

  /** "http", the optional "s" and "://" hold no whitespace. */
  lemma UrlHeadNotSpace(s: string, p: nat, ci: bool, a: nat)
    requires HttpAt(s, p, ci) && a == (if LetterSAt(s, p + 4, ci) then p + 5 else p + 4)
    requires SchemeRestAt(s, a)
    ensures forall k | p <= k < a + 3 :: !IsSpace(s[k])
  {
    forall k | p <= k < a + 3
      ensures !IsSpace(s[k])
    {
      if k < p + 4 {
        if ci {
          assert Lower(s[k]) == "http"[k - p];
        } else {
          assert s[p..p + 4][k - p] == s[k];
        }
      } else if k >= a {
        assert s[a..a + 3][k - a] == s[k];
      }
    }
  }

  /** ```[\s\S]*?``` : the shortest fenced span. */
  function FenceAt(s: string, p: nat): (h: Option<Hit>)
    requires p <= |s|
    ensures h.Some? ==> h.value.group == p && p + 6 <= h.value.end <= |s|
    ensures h.Some? ==> LitAt(s, p, "```") && LitAt(s, h.value.end - 3, "```")
    ensures h.Some? ==> forall q | p + 3 <= q < h.value.end - 3 :: !LitAt(s, q, "```")
    ensures h.None? ==> !LitAt(s, p, "```") || forall q | p + 3 <= q :: !LitAt(s, q, "```")
  {
    if !LitAt(s, p, "```") then None
    else
      match Find(s, "```", p + 3)
      case None => None
      case Some(j) => Some(Hit(p, j + 3))
  }

  /** Error:\s*ToolException\([\s\S]*?\)\s* : up to the first ")" after the opening
      parenthesis, then every whitespace character after it. */
  function ToolErrorAt(s: string, p: nat): (h: Option<Hit>)
    requires p <= |s|
    ensures h.Some? <==> CiLitAt(s, p, "error:") && CiLitAt(s, RunEnd(s, p + 6, Space), "toolexception(")
                         && Find(s, ")", RunEnd(s, p + 6, Space) + 14).Some?
    ensures h.Some? ==>
      h.value == Hit(p, RunEnd(s, Find(s, ")", RunEnd(s, p + 6, Space) + 14).value + 1, Space))
    ensures h.Some? ==> p + 21 <= h.value.end <= |s|
    ensures h.Some? ==> h.value.end == |s| || !IsSpace(s[h.value.end])
  {
    if !CiLitAt(s, p, "error:") then None
    else
      var b := RunEnd(s, p + 6, Space);
      if !CiLitAt(s, b, "toolexception(") then None
      else
        match Find(s, ")", b + 14)
        case None => None
        case Some(j) => Some(Hit(p, RunEnd(s, j + 1, Space)))
  }

  /** `}` then optional whitespace then `}` at `k`. */
  predicate DoubleCloseAt(s: string, k: nat) {
    k < |s| && s[k] == '}' && var m := RunEnd(s, k + 1, Space); m < |s| && s[m] == '}'
  }

  /** The leftmost `DoubleCloseAt` at or after `i`: where the lazy `[\s\S]*?` of
      `DataJson` stops. */
  function DoubleCloseFrom(s: string, i: nat): (r: Option<nat>)
    requires i <= |s|
    ensures r.Some? ==> i <= r.value < |s| && DoubleCloseAt(s, r.value)
    ensures r.Some? ==> forall k | i <= k < r.value :: !DoubleCloseAt(s, k)
    ensures r.None? ==> forall k | i <= k :: !DoubleCloseAt(s, k)
    decreases |s| - i
  {
    if i == |s| then None
    else if DoubleCloseAt(s, i) then Some(i)
    else DoubleCloseFrom(s, i + 1)
  }

  /** The opening `\{\s*"data"\s*:\s*\{` of `DataJson`: where its body starts. */
  function DataOpenAt(s: string, p: nat): (r: Option<nat>)
    requires p <= |s|
    ensures r.Some? <==>
      CharAt(s, p, '{')
      && (var a := RunEnd(s, p + 1, Space);
          LitAt(s, a, "\"data\"")
          && (var b := RunEnd(s, a + 6, Space);
              CharAt(s, b, ':') && CharAt(s, RunEnd(s, b + 1, Space), '{')))
    ensures r.Some? ==>
      r.value == RunEnd(s, RunEnd(s, RunEnd(s, p + 1, Space) + 6, Space) + 1, Space) + 1
    ensures r.Some? ==> p + 9 <= r.value <= |s| && s[p] == '{' && s[r.value - 1] == '{'
  {
    if !CharAt(s, p, '{') then None
    else
      var a := RunEnd(s, p + 1, Space);
      if !LitAt(s, a, "\"data\"") then None
      else
        var b := RunEnd(s, a + 6, Space);
        if !CharAt(s, b, ':') then None
        else
          var c := RunEnd(s, b + 1, Space);
          if !CharAt(s, c, '{') then None else Some(c + 1)
  }

  /** \{\s*"data"\s*:\s*\{[\s\S]*?\}\s*\}\s* : the opening, then the lazy body up to the
      first closing pair, then the whitespace after it. */
  function DataJsonAt(s: string, p: nat): (h: Option<Hit>)
    requires p <= |s|
    ensures h.Some? <==> DataOpenAt(s, p).Some? && DoubleCloseFrom(s, DataOpenAt(s, p).value).Some?
    ensures h.Some? ==> var k := DoubleCloseFrom(s, DataOpenAt(s, p).value).value;
      h.value == Hit(p, RunEnd(s, RunEnd(s, k + 1, Space) + 1, Space))
    ensures h.Some? ==> p + 11 <= h.value.end <= |s| && s[p] == '{'
    ensures h.Some? ==> h.value.end == |s| || !IsSpace(s[h.value.end])
  {
    match DataOpenAt(s, p)
    case None => None
    case Some(c) =>
      match DoubleCloseFrom(s, c)
      case None => None
      case Some(k) =>
        var m := RunEnd(s, k + 1, Space);
        Some(Hit(p, RunEnd(s, m + 1, Space)))
  }

  /** (^|\n)\s*Day\s+\d+\s*[:\-] : a day header at the start of the text or after a
      newline (the `\s*` may itself cross newlines). */
  function AnchoredDayAt(s: string, p: nat): (h: Option<Hit>)
    requires p <= |s|
    ensures h.Some? <==> (p == 0 || CharAt(s, p, '\n')) && DayHeaderAt(s, RunEnd(s, p, Space)).Some?
    ensures h.Some? ==> h.value == Hit(p, DayHeaderAt(s, RunEnd(s, p, Space)).value)
    ensures h.Some? ==> p < h.value.end <= |s|
  {
    if !(p == 0 || CharAt(s, p, '\n')) then None
    else
      match DayHeaderAt(s, RunEnd(s, p, Space))
      case None => None
      case Some(e) => Some(Hit(p, e))
  }

  /** \s+(Day\s+\d+\s*[:\-]) : a whitespace run and the header that follows it; the
      group is the header. */
  function InlineDayAt(s: string, p: nat): (h: Option<Hit>)
    requires p <= |s|
    ensures h.Some? <==> p < |s| && IsSpace(s[p]) && DayHeaderAt(s, RunEnd(s, p, Space)).Some?
    ensures h.Some? ==> h.value == Hit(RunEnd(s, p, Space), DayHeaderAt(s, RunEnd(s, p, Space)).value)
    ensures h.Some? ==> p < h.value.group < h.value.end <= |s|
  {
    if p == |s| || !IsSpace(s[p]) then None
    else
      var q := RunEnd(s, p, Space);
      match DayHeaderAt(s, q)
      case None => None
      case Some(e) => Some(Hit(q, e))
  }

  /** \n(?=\s*Day\s+\d+\s*[:\-]) : a newline that a day header follows. */
  function DayBreakAt(s: string, p: nat): (h: Option<Hit>)
    requires p <= |s|
    ensures h.Some? ==> h.value == Hit(p, p + 1) && p < |s| && s[p] == '\n'
    ensures h.Some? <==> p < |s| && s[p] == '\n' && DayHeaderAt(s, RunEnd(s, p + 1, Space)).Some?
  {
    if p < |s| && s[p] == '\n' && DayHeaderAt(s, RunEnd(s, p + 1, Space)).Some? then Some(Hit(p, p + 1))
    else None
  }

  /** Topic\s*:\s*([^\n]+) . After the colon the greedy `\s*` stops at the first
      non-space character, and the group runs to the end of its line. When only
      whitespace follows the colon, `\s*` gives characters back until `[^\n]+` can take
      one: the group is then the last character before the trailing newlines, and the
      pattern fails there if there is none. */
  function TopicLabelAt(s: string, p: nat): (h: Option<Hit>)
    requires p <= |s|
    ensures h.Some? <==> CiLitAt(s, p, "topic") && LitAt(s, RunEnd(s, p + 5, Space), ":")
                         && exists k | RunEnd(s, p + 5, Space) < k < |s| :: s[k] != '\n'
    ensures h.Some? ==> var w := RunEnd(s, RunEnd(s, p + 5, Space) + 1, Space);
      w < |s| ==> h.value.group == w
    ensures h.Some? ==> p < h.value.group < h.value.end <= |s|
    ensures h.Some? ==> forall k | h.value.group <= k < h.value.end :: s[k] != '\n'
    ensures h.Some? ==> h.value.end == |s| || s[h.value.end] == '\n'
  {
    if !CiLitAt(s, p, "topic") then None
    else
      var a := RunEnd(s, p + 5, Space);
      if !LitAt(s, a, ":") then None
      else
        var w := RunEnd(s, a + 1, Space);
        if w < |s| then
          assert s[w] != '\n';
          RunEndAll(s, w, NotNewline); Some(Hit(w, RunEnd(s, w, NotNewline)))
        else
          var b := RunStart(s, a + 1, |s|, Newline);
          RunStartAll(s, a + 1, |s|, Newline);
          if b == a + 1 then None else Some(Hit(b - 1, b))
  }

  /** `(?:\s*\d+)?\s*:?\s*` from `a`: an optional number, an optional colon and the
      whitespace around them, where the URL of a "YouTube Link" label starts. None of
      these can give characters back to a URL, which opens with "h". */
  function LinkUrlStart(s: string, a: nat): (u: nat)
    requires a <= |s|
    ensures a <= u <= |s|
    ensures u == |s| || !IsSpace(s[u])
    ensures forall k | a <= k < u :: IsSpace(s[k]) || IsDigit(s[k]) || s[k] == ':'
  {
    var c := RunEnd(s, a, Space);
    RunEndAll(s, a, Space);
    var n := if DigitAt(s, c) then RunEndAll(s, c, Digit); RunEnd(s, c, Digit) else a;
    var d := RunEnd(s, n, Space);
    RunEndAll(s, n, Space);
    if CharAt(s, d, ':') then RunEndAll(s, d + 1, Space); RunEnd(s, d + 1, Space) else d
  }

  /** `YouTube\s*Link` at `p`, in any case: where the label ends. */
  function LinkLabelAt(s: string, p: nat): (r: Option<nat>)
    requires p <= |s|
    ensures r.Some? <==> CiLitAt(s, p, "youtube") && CiLitAt(s, RunEnd(s, p + 7, Space), "link")
    ensures r.Some? ==> r.value == RunEnd(s, p + 7, Space) + 4 <= |s| && p < r.value
  {
    if !CiLitAt(s, p, "youtube") then None
    else
      var a := RunEnd(s, p + 7, Space);
      if !CiLitAt(s, a, "link") then None else Some(a + 4)
  }

  /** YouTube\s*Link(?:\s*\d+)?\s*:?\s*(https?://\S+) ; the group is the URL. */
  function LabelledLinkAt(s: string, p: nat): (h: Option<Hit>)
    requires p <= |s|
    ensures h.Some? <==> LinkLabelAt(s, p).Some?
                         && UrlAt(s, LinkUrlStart(s, LinkLabelAt(s, p).value), true).Some?
    ensures h.Some? ==> var u := LinkUrlStart(s, LinkLabelAt(s, p).value);
      h.value == Hit(u, UrlAt(s, u, true).value)
    ensures h.Some? ==> p < h.value.group <= |s|
  {
    match LinkLabelAt(s, p)
    case None => None
    case Some(b) =>
      var u := LinkUrlStart(s, b);
      match UrlAt(s, u, true)
      case None => None
      case Some(e) => Some(Hit(u, e))
  }

  /** https?://\S+ (case-sensitive). */
  function BareUrlAt(s: string, p: nat): (h: Option<Hit>)
    requires p <= |s|
    ensures h.Some? <==> UrlAt(s, p, false).Some?
    ensures h.Some? ==> h.value == Hit(p, UrlAt(s, p, false).value)
  {
    match UrlAt(s, p, false)
    case None => None
    case Some(e) => Some(Hit(p, e))
  }

  /** `\(\s*10\s*\)` at `b`: where the bracketed count ends. */
  function CountAt(s: string, b: nat): (r: Option<nat>)
    requires b <= |s|
    ensures r.Some? <==>
      LitAt(s, b, "(")
      && (var c := RunEnd(s, b + 1, Space);
          LitAt(s, c, "10") && LitAt(s, RunEnd(s, c + 2, Space), ")"))
    ensures r.Some? ==> r.value == RunEnd(s, RunEnd(s, b + 1, Space) + 2, Space) + 1 <= |s|
  {
    if !LitAt(s, b, "(") then None
    else
      var c := RunEnd(s, b + 1, Space);
      if !LitAt(s, c, "10") then None
      else
        var d := RunEnd(s, c + 2, Space);
        if !LitAt(s, d, ")") then None else Some(d + 1)
  }

  /** Practice\s*Questions\s*\(\s*10\s*\)\s*:?\s*(.*)$ with DOTALL: the group is
      everything after the label, its optional colon and the whitespace around it. */
  function QuestionsLabelAt(s: string, p: nat): (h: Option<Hit>)
    requires p <= |s|
    ensures h.Some? <==> QuestionsWordsAt(s, p).Some? && CountAt(s, QuestionsWordsAt(s, p).value).Some?
    ensures h.Some? ==> var e := RunEnd(s, CountAt(s, QuestionsWordsAt(s, p).value).value, Space);
      h.value == Hit(if CharAt(s, e, ':') then RunEnd(s, e + 1, Space) else e, |s|)
    ensures h.Some? ==> p < h.value.group <= h.value.end == |s|
    ensures h.Some? ==> h.value.group == |s| || !IsSpace(s[h.value.group])
  {
    match QuestionsWordsAt(s, p)
    case None => None
    case Some(w) =>
      match CountAt(s, w)
      case None => None
      case Some(d) =>
        var e := RunEnd(s, d, Space);
        var g := if CharAt(s, e, ':') then RunEnd(s, e + 1, Space) else e;
        Some(Hit(g, |s|))
  }

  /** `practice\s*questions\s*` at `p`, any case: where the spaces after it end. */
  function QuestionsWordsAt(s: string, p: nat): (r: Option<nat>)
    requires p <= |s|
    ensures r.Some? <==> CiLitAt(s, p, "practice") && CiLitAt(s, RunEnd(s, p + 8, Space), "questions")
    ensures r.Some? ==> r.value == RunEnd(s, RunEnd(s, p + 8, Space) + 9, Space) && p + 17 <= r.value
  {
    if !CiLitAt(s, p, "practice") then None
    else
      var a := RunEnd(s, p + 8, Space);
      if !CiLitAt(s, a, "questions") then None
      else Some(RunEnd(s, a + 9, Space))
  }


  /** ^\s*Day\s+\d+\s*[:\-]?.*$ with MULTILINE: from a line start, through the day
      number, the whitespace after it (which may cross newlines), an optional
      separator and the rest of that line. */
  function LooseDayAt(s: string, p: nat): (h: Option<Hit>)
    requires p <= |s|
    ensures h.Some? <==> (p == 0 || s[p - 1] == '\n') && DayNumberAt(s, RunEnd(s, p, Space)).Some?
    ensures h.Some? ==> var d := RunEnd(s, DayNumberAt(s, RunEnd(s, p, Space)).value, Space);
      h.value == Hit(p, RunEnd(s, if SeparatorAt(s, d) then d + 1 else d, NotNewline))
    ensures h.Some? ==> p < h.value.end <= |s|
    ensures h.Some? ==> h.value.end == |s| || s[h.value.end] == '\n'
  {
    if !(p == 0 || s[p - 1] == '\n') then None
    else
      match DayNumberAt(s, RunEnd(s, p, Space))
      case None => None
      case Some(n) =>
        var d := RunEnd(s, n, Space);
        var d' := if SeparatorAt(s, d) then d + 1 else d;
        Some(Hit(p, RunEnd(s, d', NotNewline)))
  }

  /** The match of `pat` that starts at `p`, if any. */
  function MatchAt(pat: Pattern, s: string, p: nat): (h: Option<Hit>)
    requires p <= |s|
    ensures h.Some? ==> p <= h.value.group <= h.value.end <= |s| && p < h.value.end
  {
    match pat
    case Fence => FenceAt(s, p)
    case ToolError => ToolErrorAt(s, p)
    case DataJson => DataJsonAt(s, p)
    case AnchoredDay => AnchoredDayAt(s, p)
    case InlineDay => InlineDayAt(s, p)
    case DayBreak => DayBreakAt(s, p)
    case TopicLabel => TopicLabelAt(s, p)
    case LabelledLink => LabelledLinkAt(s, p)
    case BareUrl => BareUrlAt(s, p)
    case QuestionsLabel => QuestionsLabelAt(s, p)
    case LooseDay => LooseDayAt(s, p)
  }

  /** The outcome of trying a pattern at every position `0..|s|` of a text, as the
      regex engine tries them one after the other. */
  type Table = seq<Option<Hit>>

  predicate ValidTable(t: Table, s: string) {
    && |t| == |s| + 1
    && forall p | 0 <= p < |t| :: t[p].Some? ==> p <= t[p].value.group <= t[p].value.end <= |s| && p < t[p].value.end
  }

  function TableOf(pat: Pattern, s: string): (t: Table)
    ensures ValidTable(t, s)
    ensures forall p | 0 <= p <= |s| :: t[p] == MatchAt(pat, s, p)
  {
    seq(|s| + 1, p requires 0 <= p <= |s| => MatchAt(pat, s, p))
  }

  /** `re.search` from `from`: the leftmost position where the pattern matches. */
  function Search(t: Table, s: string, from: nat): (r: Option<nat>)
    requires ValidTable(t, s) && from <= |s|
    ensures r.Some? ==> from <= r.value < |s| && t[r.value].Some?
    ensures r.Some? ==> forall q | from <= q < r.value :: t[q].None?
    ensures r.None? ==> forall q | from <= q <= |s| :: t[q].None?
    decreases |s| - from
  {
    if t[from].Some? then Some(from)
    else if from == |s| then None
    else Search(t, s, from + 1)
  }

  /** `p` is where the leftmost match of `pat` in `s` starts. */
  predicate LeftmostAt(pat: Pattern, s: string, p: nat) {
    p <= |s| && MatchAt(pat, s, p).Some? && forall q | 0 <= q < p :: MatchAt(pat, s, q).None?
  }

  /** The leftmost match gives the first group. */
  lemma FirstGroupAt(pat: Pattern, s: string, p: nat)
    requires LeftmostAt(pat, s, p)
    ensures FirstGroup(pat, s) == Some(s[MatchAt(pat, s, p).value.group..MatchAt(pat, s, p).value.end])
  {
    var t := TableOf(pat, s);
    SearchAt(t, s, p);
  }

  /** The search from the start stops at the first position with a match. */
  lemma SearchAt(t: Table, s: string, p: nat)
    requires ValidTable(t, s) && p <= |s| && t[p].Some? && forall q | 0 <= q < p :: t[q].None?
    ensures Search(t, s, 0) == Some(p)
  {
  }

  /** The capture group of the leftmost match of `pat` in `s`, if there is one. */
  function FirstGroup(pat: Pattern, s: string): (r: Option<string>)
    ensures r.Some? <==> exists p | 0 <= p <= |s| :: MatchAt(pat, s, p).Some?
    ensures r.Some? ==>
      var m := Search(TableOf(pat, s), s, 0).value;
      var h := MatchAt(pat, s, m).value;
      && (forall q | 0 <= q < m :: MatchAt(pat, s, q).None?)
      && r.value == s[h.group..h.end]
  {
    var t := TableOf(pat, s);
    match Search(t, s, 0)
    case None => None
    case Some(m) =>
      var h := t[m].value;
      Some(s[h.group..h.end])
  }

  /** The text `re.sub` puts in place of a match: nothing for the spans the sanitizer
      deletes, "\n" and the header for `InlineDay`. */
  function Replacement(pat: Pattern, s: string, h: Hit): string
    requires h.group <= h.end <= |s|
  {
    if pat == InlineDay then "\n" + s[h.group..h.end] else ""
  }

  /** `re.sub` over `s[p..]`, with the matches of `pat` tabled in `t`. */
  function Replace(pat: Pattern, t: Table, s: string, p: nat): (r: string)
    requires ValidTable(t, s) && p <= |s|
    ensures pat != InlineDay ==> |r| <= |s| - p
    decreases |s| - p
  {
    if p == |s| then ""
    else
      match t[p]
      case Some(h) => Replacement(pat, s, h) + Replace(pat, t, s, h.end)
      case None => [s[p]] + Replace(pat, t, s, p + 1)
  }

  /** `re.sub(pat, replacement, s)`. */
  function Sub(pat: Pattern, s: string): string {
    Replace(pat, TableOf(pat, s), s, 0)
  }

  /** The replacement written for each of the matches `ms`. */
  function Replacements(pat: Pattern, t: Table, s: string, ms: seq<nat>): (reps: seq<string>)
    requires ValidTable(t, s) && forall i | 0 <= i < |ms| :: ms[i] < |s| && t[ms[i]].Some?
    ensures |reps| == |ms|
    ensures forall i | 0 <= i < |ms| :: reps[i] == Replacement(pat, s, t[ms[i]].value)
    decreases |ms|
  {
    if ms == [] then []
    else [Replacement(pat, s, t[ms[0]].value)] + Replacements(pat, t, s, ms[1..])
  }

  /** The pieces and the replacements taken in turn: the first piece, the first
      replacement, the second piece, and so on. */
  function Weave(pieces: seq<string>, reps: seq<string>): string
    decreases |pieces|
  {
    if pieces == [] then ""
    else if reps == [] then pieces[0] + Weave(pieces[1..], [])
    else pieces[0] + reps[0] + Weave(pieces[1..], reps[1..])
  }

  /** `re.sub` writes the pieces of `re.split` with the replacement of each match
      `re.finditer` finds between them; here from a scan at `p` whose pending text
      starts at `start`. */
  lemma {:induction false} ReplaceWeave(pat: Pattern, t: Table, s: string, start: nat, p: nat)
    requires ValidTable(t, s) && start <= p <= |s|
    ensures s[start..p] + Replace(pat, t, s, p)
      == Weave(SplitFrom(t, s, start, p), Replacements(pat, t, s, FindAll(t, s, p)))
    decreases |s| - p
  {
    if p == |s| {
      var x := s[start..];
      assert [x][1..] == [];
      assert Weave([x], []) == x + "";
      assert x + "" == x;
      assert s[start..p] + "" == x;
    } else if t[p].Some? {
      var h := t[p].value;
      assert p < h.end <= |s|;
      ReplaceWeave(pat, t, s, h.end, h.end);
      ReplaceWeaveCons(pat, t, s, start, p);
    } else {
      ReplaceWeave(pat, t, s, start, p + 1);
      ReplaceWeaveSkip(pat, t, s, start, p);
    }
  }

  /** The step of `ReplaceWeave` at a position that does not match. */
  lemma ReplaceWeaveSkip(pat: Pattern, t: Table, s: string, start: nat, p: nat)
    requires ValidTable(t, s) && start <= p < |s| && t[p].None?
    requires s[start..p + 1] + Replace(pat, t, s, p + 1)
      == Weave(SplitFrom(t, s, start, p + 1), Replacements(pat, t, s, FindAll(t, s, p + 1)))
    ensures s[start..p] + Replace(pat, t, s, p)
      == Weave(SplitFrom(t, s, start, p), Replacements(pat, t, s, FindAll(t, s, p)))
  {
    assert SplitFrom(t, s, start, p) == SplitFrom(t, s, start, p + 1);
    assert FindAll(t, s, p) == FindAll(t, s, p + 1);
    var rest := Replace(pat, t, s, p + 1);
    assert Replace(pat, t, s, p) == [s[p]] + rest;
    SliceNext(s, start, p);
    Assoc(s[start..p], [s[p]], rest);
  }

  /** The step of `ReplaceWeave` at a match, given the pieces from the match's end. */
  lemma ReplaceWeaveCons(pat: Pattern, t: Table, s: string, start: nat, p: nat)
    requires ValidTable(t, s) && start <= p < |s| && t[p].Some?
    requires var e := t[p].value.end;
      s[e..e] + Replace(pat, t, s, e) == Weave(SplitFrom(t, s, e, e), Replacements(pat, t, s, FindAll(t, s, e)))
    ensures s[start..p] + Replace(pat, t, s, p)
      == Weave(SplitFrom(t, s, start, p), Replacements(pat, t, s, FindAll(t, s, p)))
  {
    var h := t[p].value;
    var a := s[start..p];
    var pieces := SplitFrom(t, s, h.end, h.end);
    var ms := FindAll(t, s, h.end);
    var reps := Replacements(pat, t, s, ms);
    var r := Replacement(pat, s, h);
    var rest := Replace(pat, t, s, h.end);
    assert s[h.end..h.end] + rest == rest;
    assert SplitFrom(t, s, start, p) == [a] + pieces;
    assert FindAll(t, s, p) == [p] + ms;
    assert ([p] + ms)[1..] == ms;
    assert ([a] + pieces)[1..] == pieces && ([r] + reps)[1..] == reps;
    assert Weave([a] + pieces, [r] + reps) == a + r + Weave(pieces, reps);
    assert Replace(pat, t, s, p) == r + rest;
    Assoc(a, r, rest);
  }

  /** Concatenation is associative. */
  lemma Assoc<T>(a: seq<T>, b: seq<T>, c: seq<T>)
    ensures a + (b + c) == a + b + c
  {
  }

  /** `re.sub(pat, repl, s)` is the pieces of `re.split(pat, s)` with the replacement
      of each match between them. */
  lemma SubWeave(pat: Pattern, s: string)
    ensures var t := TableOf(pat, s);
      Sub(pat, s) == Weave(SplitAll(pat, s), Replacements(pat, t, s, FindAll(t, s, 0)))
  {
    ReplaceWeave(pat, TableOf(pat, s), s, 0, 0);
    assert s[0..0] == "";
  }

  /** With no match left, `Replace` copies the rest of the text. */
  lemma {:induction false} ReplaceNoMatch(pat: Pattern, t: Table, s: string, p: nat)
    requires ValidTable(t, s) && p <= |s| && Search(t, s, p).None?
    ensures Replace(pat, t, s, p) == s[p..]
    decreases |s| - p
  {
    if p < |s| {
      ReplaceNoMatch(pat, t, s, p + 1);
      assert s[p..] == [s[p]] + s[p + 1..];
    }
  }

  /** `Replace` copies the text up to the leftmost match, puts the replacement in
      its place and carries on after it. */
  lemma {:induction false} ReplaceLeftmost(pat: Pattern, t: Table, s: string, p: nat)
    requires ValidTable(t, s) && p <= |s| && Search(t, s, p).Some?
    ensures var m := Search(t, s, p).value; var h := t[m].value;
      Replace(pat, t, s, p) == s[p..m] + Replacement(pat, s, h) + Replace(pat, t, s, h.end)
    decreases |s| - p
  {
    var m := Search(t, s, p).value;
    if t[p].None? {
      var h := t[m].value;
      var rep, rest := Replacement(pat, s, h), Replace(pat, t, s, h.end);
      assert Search(t, s, p) == Search(t, s, p + 1);
      ReplaceLeftmost(pat, t, s, p + 1);
      assert Replace(pat, t, s, p + 1) == s[p + 1..m] + rep + rest;
      assert Replace(pat, t, s, p) == [s[p]] + (s[p + 1..m] + rep + rest);
      ConsConcat(s[p], s[p + 1..m], rep, rest);
      SliceFront(s, p, m);
      assert Replace(pat, t, s, p) == s[p..m] + rep + rest;
    } else {
      assert m == p && s[p..m] == [];
    }
  }

  /** Where the match at `q`, which the table holds, ends. */
  function EndAt(t: Table, s: string, q: nat): (e: nat)
    requires ValidTable(t, s) && q <= |s| && t[q].Some?
    ensures q < e <= |s|
  {
    t[q].value.end
  }

  /** `starts` lists the matches from `p` on as `re.finditer` yields them: each
      start is the leftmost match at or after the end of the one before (or at or
      after `p` for the first), and no match is left after the last one's end. */
  predicate Successive(t: Table, s: string, p: nat, starts: seq<nat>)
    requires ValidTable(t, s) && p <= |s|
  {
    && (forall i | 0 <= i < |starts| :: p <= starts[i] < |s| && t[starts[i]].Some?)
    && (starts == [] ==> Search(t, s, p).None?)
    && (starts != [] ==> Search(t, s, p) == Some(starts[0]))
    && (forall i | 0 < i < |starts| :: Search(t, s, EndAt(t, s, starts[i - 1])) == Some(starts[i]))
    && (starts != [] ==> Search(t, s, EndAt(t, s, starts[|starts| - 1])).None?)
  }

  /** A match at `p` followed by the successive matches from its end. */
  lemma SuccessiveCons(t: Table, s: string, p: nat, rest: seq<nat>)
    requires ValidTable(t, s) && p < |s| && t[p].Some?
    requires Successive(t, s, EndAt(t, s, p), rest)
    ensures Successive(t, s, p, [p] + rest)
  {
    var m := [p] + rest;
    assert forall i | 0 < i < |m| :: m[i] == rest[i - 1];
    forall i | 1 < i < |m|
      ensures Search(t, s, EndAt(t, s, m[i - 1])) == Some(m[i])
    {
      assert m[i - 1] == rest[i - 2];
    }
  }

  /** The start positions of the matches `re.finditer` yields over `s[p..]`: the
      leftmost match, then the leftmost match from where it ends, and so on until no
      match is left, so that no match is skipped. */
  function FindAll(t: Table, s: string, p: nat): (starts: seq<nat>)
    requires ValidTable(t, s) && p <= |s|
    ensures Successive(t, s, p, starts)
    ensures forall i | 0 < i < |starts| :: starts[i - 1] < starts[i]
    decreases |s| - p
  {
    if p == |s| then []
    else
      match t[p]
      case Some(h) =>
        var rest := FindAll(t, s, h.end);
        SuccessiveCons(t, s, p, rest);
        [p] + rest
      case None => FindAll(t, s, p + 1)
  }

  /** No match lies between the end of one match `FindAll` yields and the start of
      the next, nor before the first or after the end of the last. */
  lemma FindAllComplete(t: Table, s: string, p: nat, i: nat, q: nat)
    requires ValidTable(t, s) && p <= |s|
    requires var starts := FindAll(t, s, p);
      || (starts == [] && p <= q <= |s|)
      || (starts != [] && p <= q < starts[0])
      || (0 < i < |starts| && EndAt(t, s, starts[i - 1]) <= q < starts[i])
      || (starts != [] && i == |starts| && EndAt(t, s, starts[i - 1]) <= q <= |s|)
    ensures t[q].None?
  {
  }

  /** `re.split` over `s[start..]` where the scan for the next match has reached `p`. */
  function SplitFrom(t: Table, s: string, start: nat, p: nat): (pieces: seq<string>)
    requires ValidTable(t, s) && start <= p <= |s|
    ensures |pieces| >= 1
    decreases |s| - p
  {
    if p == |s| then [s[start..]]
    else
      match t[p]
      case Some(h) => [s[start..p]] + SplitFrom(t, s, h.end, h.end)
      case None => SplitFrom(t, s, start, p + 1)
  }

  /** The text from the end of the match `ms[i - 1]` to the next match, or to the end
      of the text after the last one. */
  function Gap(t: Table, s: string, p: nat, ms: seq<nat>, i: nat): string
    requires ValidTable(t, s) && p <= |s| && Successive(t, s, p, ms) && 0 < i <= |ms|
  {
    var from := EndAt(t, s, ms[i - 1]);
    if i < |ms| then s[from..ms[i]] else s[from..]
  }

  /** The pieces of `re.split` are the texts between the matches `re.finditer`
      finds: from `start` to the first match, then from each match's end to the
      next match's start, and the rest of the text after the last match. */
  lemma {:induction false} SplitFromPieces(t: Table, s: string, start: nat, p: nat)
    requires ValidTable(t, s) && start <= p <= |s|
    ensures var pieces := SplitFrom(t, s, start, p); var ms := FindAll(t, s, p);
      && |pieces| == |ms| + 1
      && pieces[0] == s[start..if ms == [] then |s| else ms[0]]
      && forall i | 0 < i < |pieces| :: pieces[i] == Gap(t, s, p, ms, i)
    decreases |s| - p
  {
    if p < |s| {
      match t[p]
      case Some(h) =>
        SplitGapsCons(t, s, start, p);
      case None =>
        SplitGapsSkip(t, s, start, p);
    }
  }

  /** The step of `SplitFromPieces` at a position that does not match. */
  lemma {:induction false} SplitGapsSkip(t: Table, s: string, start: nat, p: nat)
    requires ValidTable(t, s) && start <= p < |s| && t[p].None?
    ensures var pieces := SplitFrom(t, s, start, p); var ms := FindAll(t, s, p);
      && |pieces| == |ms| + 1
      && pieces[0] == s[start..if ms == [] then |s| else ms[0]]
      && forall i | 0 < i < |pieces| :: pieces[i] == Gap(t, s, p, ms, i)
    decreases |s| - p, 0
  {
    SplitFromPieces(t, s, start, p + 1);
    var ms := FindAll(t, s, p + 1);
    assert FindAll(t, s, p) == ms;
    var pieces := SplitFrom(t, s, start, p);
    assert pieces == SplitFrom(t, s, start, p + 1);
    forall i | 0 < i < |pieces|
      ensures pieces[i] == Gap(t, s, p, ms, i)
    {
      assert pieces[i] == Gap(t, s, p + 1, ms, i);
    }
  }

  /** The step of `SplitFromPieces` at a match. */
  lemma {:induction false} SplitGapsCons(t: Table, s: string, start: nat, p: nat)
    requires ValidTable(t, s) && start <= p < |s| && t[p].Some?
    ensures var pieces := SplitFrom(t, s, start, p); var ms := FindAll(t, s, p);
      && |pieces| == |ms| + 1
      && pieces[0] == s[start..if ms == [] then |s| else ms[0]]
      && forall i | 0 < i < |pieces| :: pieces[i] == Gap(t, s, p, ms, i)
    decreases |s| - p, 0
  {
    var e := EndAt(t, s, p);
    SplitFromPieces(t, s, e, e);
    var rest := FindAll(t, s, e);
    var ms := FindAll(t, s, p);
    assert ms == [p] + rest;
    var tail := SplitFrom(t, s, e, e);
    var pieces := SplitFrom(t, s, start, p);
    assert pieces == [s[start..p]] + tail;
    forall i | 0 < i < |pieces|
      ensures pieces[i] == Gap(t, s, p, ms, i)
    {
      if i == 1 {
        assert tail[0] == Gap(t, s, p, ms, 1);
      } else {
        GapShift(t, s, p, rest, i);
      }
    }
  }

  /** After the first match, the gaps are those of the matches from its end on. */
  lemma GapShift(t: Table, s: string, p: nat, rest: seq<nat>, i: nat)
    requires ValidTable(t, s) && p < |s| && t[p].Some?
    requires rest == FindAll(t, s, EndAt(t, s, p)) && FindAll(t, s, p) == [p] + rest
    requires 1 < i <= |rest| + 1
    ensures Gap(t, s, p, [p] + rest, i) == Gap(t, s, EndAt(t, s, p), rest, i - 1)
  {
    assert ([p] + rest)[i - 1] == rest[i - 2];
    assert i < |rest| + 1 ==> ([p] + rest)[i] == rest[i - 1];
  }

  /** `re.split(pat, s)`: the text before the first match, then the texts between
      consecutive matches, then the text after the last one. */
  function SplitAll(pat: Pattern, s: string): (pieces: seq<string>)
    ensures var t := TableOf(pat, s); var ms := FindAll(t, s, 0);
      && |pieces| == |ms| + 1
      && pieces[0] == s[..if ms == [] then |s| else ms[0]]
      && forall i | 0 < i < |pieces| :: pieces[i] == Gap(t, s, 0, ms, i)
  {
    SplitFromPieces(TableOf(pat, s), s, 0, 0);
    SplitFrom(TableOf(pat, s), s, 0, 0)
  }

  /** When every match is a single "\n", the pieces joined with "\n" give back the
      text. */
  lemma {:induction false} SplitFromJoin(t: Table, s: string, start: nat, p: nat)
    requires ValidTable(t, s) && start <= p <= |s|
    requires forall q | 0 <= q <= |s| :: t[q].Some? ==> q < |s| && s[q] == '\n' && t[q].value.end == q + 1
    ensures Join(SplitFrom(t, s, start, p), "\n") == s[start..]
    decreases |s| - p
  {
    if p < |s| {
      match t[p]
      case Some(h) =>
        SplitFromJoin(t, s, h.end, h.end);
        var rest := SplitFrom(t, s, h.end, h.end);
        assert ([s[start..p]] + rest)[1..] == rest;
        assert s[start..] == s[start..p] + "\n" + s[p + 1..];
      case None =>
        SplitFromJoin(t, s, start, p + 1);
    }
  }

  /** Splitting at the newlines a day header follows: the pieces joined with "\n"
      give back the text, and every match is such a newline, so that every piece
      after the first starts right after one. */
  lemma SplitAllDayBreak(s: string)
    ensures Join(SplitAll(DayBreak, s), "\n") == s
    ensures var t := TableOf(DayBreak, s); var ms := FindAll(t, s, 0);
      forall i | 0 <= i < |ms| :: DayBreakAt(s, ms[i]).Some? && EndAt(t, s, ms[i]) == ms[i] + 1
  {
    var t := TableOf(DayBreak, s);
    SplitFromJoin(t, s, 0, 0);
    assert s[0..] == s;
  }
}
