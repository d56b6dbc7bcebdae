/** `sanitize_learning_path_text`: removes the agent's tool traces from its answer
    and keeps the user-facing learning path, from a short title down through the
    day-by-day plan. */
module Sanitizer {
  import opened Text
  import opened Patterns

  /** A stripped line that opens with Thought, Action or Observation in any case; the
      colon after the word is optional, so only the prefix counts. */
  predicate IsTraceLabel(s: string) {
    CiLitAt(s, 0, "thought") || CiLitAt(s, 0, "action") || CiLitAt(s, 0, "observation")
  }

  /** A non-blank stripped line the sanitizer drops: a trace label, or something that
      looks like a one-line JSON object. */
  predicate IsTraceLine(s: string) {
    s != "" && (IsTraceLabel(s) || (s[0] == '{' && s[|s| - 1] == '}'))
  }

  /** Only the label at the front counts: whatever follows a trace label, the line
      is a trace line, and a line without one stays clear of it whatever follows. */
  lemma TraceLabelPrefix(s: string, rest: string)
    ensures IsTraceLabel(s) ==> IsTraceLine(s + rest)
    ensures |s| >= 11 && !IsTraceLabel(s) ==> !IsTraceLabel(s + rest)
  {
    assert forall k | 0 <= k < |s| :: (s + rest)[k] == s[k];
  }

  /** A line that opens with a day header is never taken for a trace line, so the
      filter keeps every header line. */
  lemma HeaderLineKept(s: string)
    requires DayHeaderAt(s, 0).Some?
    ensures !IsTraceLine(s)
  {
    assert Lower(s[0]) == 'd' && s[0] != '{';
    assert "thought"[0] == 't' && "action"[0] == 'a' && "observation"[0] == 'o';
  }

  /** A stripped line wrapped in braces is taken for tool JSON, whatever it holds. */
  lemma BracedIsTrace(body: string)
    ensures IsTraceLine("{" + body + "}")
  {
  }

  /** What the line filter keeps of one line: blank lines become "", trace lines
      disappear, every other line stays as it was (unstripped). */
  function Kept(line: string): (r: Option<string>)
    ensures r.Some? ==> !IsTraceLine(Strip(r.value))
    ensures r.Some? ==> r.value == "" || r.value == line
    ensures r.None? <==> IsTraceLine(Strip(line))
  {
    var s := Strip(line);
    if s == "" then Some("")
    else if IsTraceLine(s) then None
    else Some(line)
  }

  /** The filter keeps the line exactly as it is: the line is empty, or neither blank
      nor a trace line. */
  predicate Settled(line: string) {
    Kept(line) == Some(line)
  }

  /** The lines the filter keeps, in their order. */
  function FilterLines(all: seq<string>): (kept: seq<string>)
    ensures |kept| <= |all|
    ensures forall i | 0 <= i < |kept| :: !IsTraceLine(Strip(kept[i]))
    ensures forall i | 0 <= i < |kept| :: kept[i] == "" || kept[i] in all
    ensures forall i | 0 <= i < |kept| :: Settled(kept[i])
    decreases |all|
  {
    if all == [] then []
    else
      var init := FilterLines(all[..|all| - 1]);
      assert forall l | l in all[..|all| - 1] :: l in all;
      match Kept(all[|all| - 1])
      case Some(l) => init + [l]
      case None => init
  }

  /** Filtering distributes over concatenation: each line is judged on its own. */
  lemma {:induction false} FilterLinesAppend(a: seq<string>, b: seq<string>)
    ensures FilterLines(a + b) == FilterLines(a) + FilterLines(b)
    decreases |b|
  {
    if b == [] {
      assert a + b == a;
    } else {
      var b' := b[..|b| - 1];
      assert (a + b)[..|a + b| - 1] == a + b';
      FilterLinesAppend(a, b');
    }
  }

  /** A line that is neither blank nor a trace line is kept unchanged, and a trace
      line is dropped. */
  lemma FilterOne(line: string)
    ensures Strip(line) != "" && !IsTraceLine(Strip(line)) ==> FilterLines([line]) == [line]
    ensures IsTraceLine(Strip(line)) ==> FilterLines([line]) == []
    ensures Strip(line) == "" ==> FilterLines([line]) == [""]
  {
    assert [line][..0] == [];
  }

  /** One more line through the filter. */
  lemma FilterStep(all: seq<string>, i: nat)
    requires i < |all|
    ensures Strip(all[i]) == "" ==> FilterLines(all[..i + 1]) == FilterLines(all[..i]) + [""]
    ensures Strip(all[i]) != "" && !IsTraceLine(Strip(all[i])) ==> FilterLines(all[..i + 1]) == FilterLines(all[..i]) + [all[i]]
    ensures IsTraceLine(Strip(all[i])) ==> FilterLines(all[..i + 1]) == FilterLines(all[..i])
  {
    assert all[..i + 1][..i] == all[..i];
  }

  /** The three span removals, in the order the sanitizer applies them: code fences,
      `Error: ToolException(...)` spans and `{"data": {...}}` spans. */
  function StripSpans(text: string): (r: string)
    ensures |r| <= |text|
  {
    Sub(DataJson, Sub(ToolError, Sub(Fence, text)))
  }

  /** A text without a fence, a tool error or a data JSON span passes the removals
      unchanged. */
  lemma StripSpansClean(text: string)
    requires Search(TableOf(Fence, text), text, 0).None?
    requires Search(TableOf(ToolError, text), text, 0).None?
    requires Search(TableOf(DataJson, text), text, 0).None?
    ensures StripSpans(text) == text
  {
    assert text[0..] == text;
    ReplaceNoMatch(Fence, TableOf(Fence, text), text, 0);
    ReplaceNoMatch(ToolError, TableOf(ToolError, text), text, 0);
    ReplaceNoMatch(DataJson, TableOf(DataJson, text), text, 0);
  }

  /** The text after the span removals and the line filter, stripped. */
  function Cleaned(text: string): (r: string)
    ensures r != "" ==> !IsSpace(r[0]) && !IsSpace(r[|r| - 1])
  {
    Strip(Join(FilterLines(SplitLines(StripSpans(text))), "\n"))
  }

  /** `head[-2:]` of the stripped lines before the first day header. */
  function TitleLines(before: string): (lines: seq<string>)
    ensures |lines| <= 2
    ensures lines != [] ==> lines[|lines| - 1] != "" && !IsSpace(Last(lines[|lines| - 1]))
    ensures var head := SplitLines(Strip(before)); |lines| <= |head| && lines == head[|head| - |lines|..]
    ensures lines == [] <==> Strip(before) == ""
  {
    var head := SplitLines(Strip(before));
    StripLastLine(before);
    if |head| <= 2 then head else head[|head| - 2..]
  }

  /** Where the first day header of the cleaned text starts: at 0 or at a newline. */
  function FirstDay(cleaned: string): (r: Option<nat>)
    ensures r.Some? ==> r.value < |cleaned| && AnchoredDayAt(cleaned, r.value).Some?
    ensures r.Some? ==> forall q | 0 <= q < r.value :: AnchoredDayAt(cleaned, q).None?
    ensures r.None? ==> forall q | 0 <= q <= |cleaned| :: AnchoredDayAt(cleaned, q).None?
  {
    var t := TableOf(AnchoredDay, cleaned);
    assert forall q | 0 <= q <= |cleaned| :: t[q] == AnchoredDayAt(cleaned, q) by {
      forall q | 0 <= q <= |cleaned| ensures t[q] == AnchoredDayAt(cleaned, q) {
        assert t[q] == MatchAt(AnchoredDay, cleaned, q);
      }
    }
    Search(t, cleaned, 0)
  }

  /** Keeps at most two title lines, a blank line and the text from the first day
      header on; text without a day header is returned as it is. */
  function CutAtFirstDay(cleaned: string): string {
    match FirstDay(cleaned)
    case None => cleaned
    case Some(start) =>
      var title := Join(TitleLines(cleaned[..start]), "\n");
      var body := Strip(cleaned[start..]);
      if title != "" then Strip(title + "\n\n" + body) else body
  }

  /** The whole sanitizer as a function of its input. */
  function Sanitize(text: string): (r: string)
    ensures text == "" ==> r == ""
    ensures forall l | l in SplitLines(r) :: !IsTraceLine(Strip(l))
    ensures forall l | l in SplitLines(r) :: Settled(l)
  {
    if text == "" then ""
    else
      CleanedSettled(text);
      CutSettled(Cleaned(text));
      LinesOkAll(CutAtFirstDay(Cleaned(text)), Settled);
      CutAtFirstDay(Cleaned(text))
  }

  /** The sanitizer as the program runs it: the line filter is a loop that appends to
      a list. */
  method SanitizeLearningPathText(text: string) returns (r: string)
    ensures r == Sanitize(text)
  {
    if text == "" {
      return "";
    }
    var all := SplitLines(StripSpans(text));
    var lines: seq<string> := [];
    var i := 0;
    while i < |all|
      invariant 0 <= i <= |all|
      invariant lines == FilterLines(all[..i])
    {
      var ln := all[i];
      var s := Strip(ln);
      FilterStep(all, i);
      if s == "" {
        lines := lines + [""];
      } else if !IsTraceLine(s) {
        lines := lines + [ln];
      }
      i := i + 1;
    }
    assert all[..i] == all;
    r := CutAtFirstDay(Strip(Join(lines, "\n")));
  }

  /** Cutting the text where an anchored header's match starts leaves the header
      right after the leading whitespace of the rest. */
  lemma HeaderAfterCut(c: string, start: nat)
    requires start <= |c| && AnchoredDayAt(c, start).Some?
    ensures var u := c[start..]; DayHeaderAt(u, RunEnd(u, 0, Space)).Some?
  {
    var q := RunEnd(c, start, Space);
    assert c[start..] == c[start..|c|];
    RunEndWindow(c, start, |c|, start, Space);
    DayHeaderWindow(c, start, |c|, q);
  }

  /** A header right after the leading whitespace opens the stripped text. */
  lemma HeaderSurvivesStrip(u: string)
    requires DayHeaderAt(u, RunEnd(u, 0, Space)).Some?
    ensures DayHeaderAt(Strip(u), 0).Some?
  {
    var a := RunEnd(u, 0, Space);
    var e := DayHeaderAt(u, a).value;
    assert IsSeparator(u[e - 1]);
    StripSlice(u, e - 1);
    DayHeaderWindow(u, a, RunStart(u, a, |u|, Space), a);
  }

  /** The stripped text from a header on still begins with that header. */
  lemma BodyStartsWithHeader(c: string, start: nat)
    requires start <= |c| && AnchoredDayAt(c, start).Some?
    ensures DayHeaderAt(Strip(c[start..]), 0).Some?
  {
    HeaderAfterCut(c, start);
    HeaderSurvivesStrip(c[start..]);
  }

  /** The title, when there is one, ends in a character that is not whitespace. */
  lemma TitleEndsInWord(before: string)
    requires TitleLines(before) != []
    ensures var title := Join(TitleLines(before), "\n"); title != "" && !IsSpace(title[|title| - 1])
  {
    JoinLastChar(TitleLines(before), "\n");
  }

  /** The value of the cut once the header position is known. */
  lemma CutValue(cleaned: string, start: nat)
    requires start <= |cleaned| && DayHeaderAt(Strip(cleaned[start..]), 0).Some?
    ensures var lines := TitleLines(cleaned[..start]); var body := Strip(cleaned[start..]);
      var title := Join(lines, "\n");
      (if title != "" then Strip(title + "\n\n" + body) else body)
      == if lines == [] then body else LStrip(title) + "\n\n" + body
  {
    var lines := TitleLines(cleaned[..start]);
    var body := Strip(cleaned[start..]);
    assert body != "";
    assert !IsSpace(body[0]) && !IsSpace(body[|body| - 1]);
    if lines != [] {
      TitleEndsInWord(cleaned[..start]);
      StripAroundBlank(Join(lines, "\n"), body);
    }
  }

  /** The shape of the sanitizer's cut: with a header at the start of the cleaned
      text or after a newline, the result is the last two lines before it (left-stripped
      once joined), a blank line and the stripped text from the header on, which
      itself begins with a day header; without one, the cleaned text is kept. */
  lemma CutAtFirstDayShape(cleaned: string)
    ensures FirstDay(cleaned).None? ==>
      CutAtFirstDay(cleaned) == cleaned
      && forall p | 0 <= p <= |cleaned| :: AnchoredDayAt(cleaned, p).None?
    ensures FirstDay(cleaned).Some? ==>
      var start := FirstDay(cleaned).value;
      var lines := TitleLines(cleaned[..start]);
      var body := Strip(cleaned[start..]);
      && AnchoredDayAt(cleaned, start).Some?
      && (forall p | 0 <= p < start :: AnchoredDayAt(cleaned, p).None?)
      && DayHeaderAt(body, 0).Some?
      && CutAtFirstDay(cleaned) == if lines == [] then body else LStrip(Join(lines, "\n")) + "\n\n" + body
  {
    var t := TableOf(AnchoredDay, cleaned);
    if FirstDay(cleaned).Some? {
      var start := FirstDay(cleaned).value;
      assert t[start] == MatchAt(AnchoredDay, cleaned, start);
      assert forall p | 0 <= p < start :: AnchoredDayAt(cleaned, p).None? by {
        forall p | 0 <= p < start ensures AnchoredDayAt(cleaned, p).None? {
          assert t[p] == MatchAt(AnchoredDay, cleaned, p);
        }
      }
      BodyStartsWithHeader(cleaned, start);
      CutValue(cleaned, start);
    } else {
      forall p | 0 <= p <= |cleaned| ensures AnchoredDayAt(cleaned, p).None? {
        assert t[p] == MatchAt(AnchoredDay, cleaned, p);
      }
    }
  }

  /** Whether the filter keeps a line as it is does not depend on whitespace at its
      ends, and it keeps the empty line. */
  lemma SettledBlind()
    ensures Settled("") && FrontBlind(Settled) && BackBlind(Settled)
  {
    assert Strip("") == "";
    forall l: string, p: nat | p <= |l| && AllSpace(l[..p]) && Settled(l)
      ensures Settled(From(l, p))
    {
      assert forall k | 0 <= k < p :: l[..p][k] == l[k];
      StripDropFront(l, p);
    }
    forall l: string, p: nat | p <= |l| && AllSpace(l[p..]) && Settled(l)
      ensures Settled(UpTo(l, p))
    {
      assert forall k | p <= k < |l| :: l[p..][k - p] == l[k];
      StripDropBack(l, p);
    }
  }

  /** The filter keeps every line of `s` as it is; in particular no line is a trace
      line once stripped. */
  predicate SettledLines(s: string) {
    LinesOk(s, Settled)
  }

  /** Every line of the cleaned text is settled: the filter would keep it as it is. */
  lemma CleanedSettled(text: string)
    ensures SettledLines(Cleaned(text))
  {
    SettledBlind();
    var kept := FilterLines(SplitLines(StripSpans(text)));
    FilterLinesUnbroken(SplitLines(StripSpans(text)));
    JoinStripLinesOk(kept, Settled);
  }

  /** The filter keeps lines without line breaks when it is given such lines. */
  lemma FilterLinesUnbroken(all: seq<string>)
    requires forall i | 0 <= i < |all| :: forall k | 0 <= k < |all[i]| :: !IsLineBreak(all[i][k])
    ensures var kept := FilterLines(all);
      forall i | 0 <= i < |kept| :: forall k | 0 <= k < |kept[i]| :: !IsLineBreak(kept[i][k])
  {
    var kept := FilterLines(all);
    forall i | 0 <= i < |kept|
      ensures forall k | 0 <= k < |kept[i]| :: !IsLineBreak(kept[i][k])
    {
      if kept[i] != "" {
        var j :| 0 <= j < |all| && all[j] == kept[i];
      }
    }
  }

  /** The text from an anchored header on, stripped, has only settled lines. */
  lemma BodySettled(cleaned: string, start: nat)
    requires start <= |cleaned| && (start == 0 || CharAt(cleaned, start, '\n'))
    requires SettledLines(cleaned)
    ensures SettledLines(Strip(cleaned[start..]))
  {
    SettledBlind();
    if start == 0 {
      assert cleaned[start..] == cleaned;
      StripLinesOk(cleaned, Settled);
    } else {
      FromBreakLinesOk(cleaned, start, Settled);
    }
  }

  /** The title kept before an anchored header has only settled lines. */
  lemma TitleSettled(cleaned: string, start: nat)
    requires start <= |cleaned| && (start == 0 || CharAt(cleaned, start, '\n'))
    requires SettledLines(cleaned)
    ensures SettledLines(Join(TitleLines(cleaned[..start]), "\n"))
  {
    var before := cleaned[..start];
    if start == 0 {
      assert Strip(before) == "";
    } else {
      SettledBlind();
      UpToBreakLinesOk(cleaned, start, Settled);
    }
    TitleTailSettled(before);
  }

  /** The title lines are lines of the stripped text before the header, so they
      are settled when the lines of that text are. */
  lemma TitleTailSettled(before: string)
    requires SettledLines(Strip(before))
    ensures SettledLines(Join(TitleLines(before), "\n"))
  {
    TailLinesOk(Strip(before), TitleLines(before), Settled);
  }

  /** The first day header starts the text or sits on a newline. */
  lemma FirstDayAtLineStart(cleaned: string)
    ensures FirstDay(cleaned).Some? ==>
      var start := FirstDay(cleaned).value;
      start <= |cleaned| && (start == 0 || CharAt(cleaned, start, '\n'))
  {
    if FirstDay(cleaned).Some? {
      var start := FirstDay(cleaned).value;
      assert TableOf(AnchoredDay, cleaned)[start] == MatchAt(AnchoredDay, cleaned, start);
    }
  }

  /** The cut keeps every line settled. */
  lemma CutSettled(cleaned: string)
    requires SettledLines(cleaned)
    ensures SettledLines(CutAtFirstDay(cleaned))
  {
    if FirstDay(cleaned).Some? {
      FirstDayAtLineStart(cleaned);
      RejoinSettled(cleaned, FirstDay(cleaned).value);
    }
  }

  /** Cutting at a line start and joining the title lines before it to the text
      after it, as `CutAtFirstDay` does, keeps every line settled. */
  lemma RejoinSettled(cleaned: string, start: nat)
    requires start <= |cleaned| && (start == 0 || CharAt(cleaned, start, '\n'))
    requires SettledLines(cleaned)
    ensures var title := Join(TitleLines(cleaned[..start]), "\n"); var body := Strip(cleaned[start..]);
      SettledLines(if title != "" then Strip(title + "\n\n" + body) else body)
  {
    var body := Strip(cleaned[start..]);
    var title := Join(TitleLines(cleaned[..start]), "\n");
    BodySettled(cleaned, start);
    TitleSettled(cleaned, start);
    if title != "" {
      TitleEndsInWord(cleaned[..start]);
      JoinedSettled(title, body);
    }
  }

  /** A title and a body with settled lines, a blank line between them, give a text
      with settled lines. */
  lemma JoinedSettled(title: string, body: string)
    requires title != "" && !IsSpace(Last(title))
    requires SettledLines(title) && SettledLines(body)
    ensures SettledLines(Strip(title + "\n\n" + body))
  {
    SettledBlind();
    BlankJoinLinesOk(title, body, Settled);
  }

  /** Lines the filter keeps as they are pass it unchanged. */
  lemma {:induction false} FilterSettled(all: seq<string>)
    requires forall i | 0 <= i < |all| :: Settled(all[i])
    ensures FilterLines(all) == all
    decreases |all|
  {
    if all != [] {
      var init := all[..|all| - 1];
      FilterSettled(init);
      assert all == init + [all[|all| - 1]];
    }
  }

  /** The cleaned text uses a lone "\n" as its only line break. */
  lemma CleanedNewlines(text: string)
    ensures NewlinesOnly(Cleaned(text))
  {
    var kept := FilterLines(SplitLines(StripSpans(text)));
    FilterLinesUnbroken(SplitLines(StripSpans(text)));
    JoinNewlinesOnly(kept);
    var j := Join(kept, "\n");
    var a, c := StripParts(j);
    NewlinesSlice(j, a, c);
  }

  /** A text that holds no span, whose lines are settled and broken by "\n" alone,
      and that has no whitespace at either end, is its own cleaned text. */
  lemma CleanedFixed(y: string)
    requires StripSpans(y) == y && SettledLines(y) && NewlinesOnly(y)
    requires y == "" || (!IsSpace(y[0]) && !IsSpace(Last(y)))
    ensures Cleaned(y) == y
  {
    var lines := SplitLines(y);
    LinesOkAll(y, Settled);
    assert forall i | 0 <= i < |lines| :: lines[i] in lines;
    FilterSettled(lines);
    if y != "" {
      JoinSplitLines(y);
      StripByUnchanged(y, Space);
    }
  }

  /** The title the cut keeps, before it is left-stripped, is the slice `c[a..v]` of
      the cleaned text, from the line start `a` on. */
  lemma TitleSlice(c: string, start: nat) returns (a: nat, v: nat)
    requires start <= |c| && c != "" && !IsSpace(c[0]) && NewlinesOnly(c)
    requires TitleLines(c[..start]) != []
    ensures a <= v <= start && Join(TitleLines(c[..start]), "\n") == c[a..v]
    ensures a == 0 || c[a - 1] == '\n'
  {
    var s := c[..start];
    var h := Strip(s);
    StripKeepsStart(s, Space);
    v := RunStart(s, 0, |s|, Space);
    assert h == c[..v];
    NewlinesSlice(c, 0, v);
    a := JoinTail(h, |TitleLines(s)|);
    assert a > 0 ==> c[a - 1] == h[a - 1];
    assert h[a..] == c[a..v];
  }

  /** `t` sits at `off` in `c`, after nothing but whitespace since the line start
      `a`. */
  predicate TitlePlaced(c: string, a: nat, off: nat, t: string) {
    && a <= off && off + |t| <= |c| && c[off..off + |t|] == t
    && (a == 0 || c[a - 1] == '\n') && (forall k | a <= k < off :: IsSpace(c[k]))
  }

  /** Where the title the cut keeps sits in the cleaned text: at `off`, after the
      line start `a` and the title's leading whitespace. */
  lemma TitleInCleaned(c: string, start: nat) returns (a: nat, off: nat)
    requires start <= |c| && c != "" && !IsSpace(c[0]) && NewlinesOnly(c)
    requires TitleLines(c[..start]) != []
    ensures var t := LStrip(Join(TitleLines(c[..start]), "\n"));
      off + |t| <= start && TitlePlaced(c, a, off, t)
  {
    var v;
    a, v := TitleSlice(c, start);
    off := LStripSlice(c, a, v);
  }

  /** A line without breaks, left-stripped, is at most one line. */
  lemma LStripOneLine(l: string)
    requires forall k | 0 <= k < |l| :: !IsLineBreak(l[k])
    ensures |SplitLines(LStrip(l))| <= 1
  {
    var u := LStrip(l);
    if u != "" {
      assert forall k | 0 <= k < |u| :: u[k] == l[RunEnd(l, 0, Space) + k];
      SplitLinesOne(u);
    }
  }

  /** Left-stripping a line without breaks leaves a line without breaks. */
  lemma LStripNoBreaks(l: string)
    requires forall k | 0 <= k < |l| :: !IsLineBreak(l[k])
    ensures forall k | 0 <= k < |LStrip(l)| :: !IsLineBreak(LStrip(l)[k])
  {
    var u := LStrip(l);
    assert forall k | 0 <= k < |u| :: u[k] == l[RunEnd(l, 0, Space) + k];
  }

  /** The first of two lines holds a visible character: left-stripping strips only
      the first line. */
  lemma LStripTwoVisible(l0: string, l1: string, m: nat)
    requires forall k | 0 <= k < |l0| :: !IsLineBreak(l0[k])
    requires forall k | 0 <= k < |l1| :: !IsLineBreak(l1[k])
    requires l1 != "" && m < |l0| && !IsSpace(l0[m])
    ensures |SplitLines(LStrip(l0 + "\n" + l1))| <= 2
  {
    LStripAppend(l0, "\n" + l1, m);
    assert l0 + "\n" + l1 == l0 + ("\n" + l1);
    var f := LStrip(l0);
    LStripNoBreaks(l0);
    SplitLinesJoin([f, l1]);
    assert Join([f, l1], "\n") == f + "\n" + l1;
  }

  /** Two lines without breaks, joined with "\n" and left-stripped, are at most two
      lines. */
  lemma LStripTwo(l0: string, l1: string)
    requires forall k | 0 <= k < |l0| :: !IsLineBreak(l0[k])
    requires forall k | 0 <= k < |l1| :: !IsLineBreak(l1[k])
    requires l1 != ""
    ensures |SplitLines(LStrip(l0 + "\n" + l1))| <= 2
  {
    if exists m :: 0 <= m < |l0| && !IsSpace(l0[m]) {
      var m :| 0 <= m < |l0| && !IsSpace(l0[m]);
      LStripTwoVisible(l0, l1, m);
    } else {
      LStripSpaces(l0 + "\n", l1);
      assert l0 + "\n" + l1 == (l0 + "\n") + l1;
      LStripOneLine(l1);
    }
  }

  /** One or two lines without breaks, joined and left-stripped, split into at most
      two lines again. */
  lemma LStripTwoLines(lines: seq<string>)
    requires 1 <= |lines| <= 2 && lines[|lines| - 1] != ""
    requires forall i | 0 <= i < |lines| :: forall k | 0 <= k < |lines[i]| :: !IsLineBreak(lines[i][k])
    ensures |SplitLines(LStrip(Join(lines, "\n")))| <= 2
  {
    if |lines| == 1 {
      LStripOneLine(lines[0]);
    } else {
      assert Join(lines, "\n") == lines[0] + "\n" + lines[1];
      LStripTwo(lines[0], lines[1]);
    }
  }

  /** Cut once more, the title the cut kept comes back unchanged: it has at most two
      lines and no whitespace at either end. */
  lemma TitleAgain(before: string)
    requires TitleLines(before) != []
    requires NewlinesOnly(LStrip(Join(TitleLines(before), "\n")))
    ensures var t := LStrip(Join(TitleLines(before), "\n"));
      t != "" && !IsSpace(t[0]) && !IsSpace(Last(t)) && Join(TitleLines(t), "\n") == t
  {
    var lines := TitleLines(before);
    var title := Join(lines, "\n");
    var t := LStrip(title);
    TitleEndsInWord(before);
    RunEndAll(title, 0, Space);
    assert Last(t) == Last(title);
    var head := SplitLines(Strip(before));
    assert forall i | 0 <= i < |lines| :: lines[i] == head[|head| - |lines| + i];
    LStripTwoLines(lines);
    StripByUnchanged(t, Space);
    JoinSplitLines(t);
  }

  /** A day header that starts inside `t` ends inside it, when `t` ends in a
      character that is not whitespace and a blank line and a word that opens
      neither a number nor a separator follow. */
  lemma HeaderStaysLeft(t: string, b: string, r: nat)
    requires t != "" && !IsSpace(Last(t)) && r < |t|
    requires b != "" && !IsSpace(b[0]) && !IsDigit(b[0]) && !IsSeparator(b[0])
    requires DayHeaderAt(t + "\n\n" + b, r).Some?
    ensures DayHeaderAt(t + "\n\n" + b, r).value <= |t|
  {
    var y := t + "\n\n" + b;
    var k := |t|;
    assert y[k - 1] == Last(t) && y[k] == '\n' && y[k + 1] == '\n' && y[k + 2] == b[0];
    RunEndExact(y, k, k + 2, Space);
    RunEndAll(y, r + 3, Space);
    var n := DayNumberAt(y, r).value;
    RunEndAll(y, RunEnd(y, r + 3, Space), Digit);
    RunEndAll(y, n, Space);
  }

  /** An anchored header of `t + "\n\n" + b` that starts inside `t` is one of `t`. */
  lemma AnchorInTitle(t: string, b: string, q: nat)
    requires t != "" && !IsSpace(Last(t)) && q < |t|
    requires DayHeaderAt(b, 0).Some?
    ensures AnchoredDayAt(t + "\n\n" + b, q).Some? ==> AnchoredDayAt(t, q).Some?
  {
    var y := t + "\n\n" + b;
    var k := |t|;
    if AnchoredDayAt(y, q).Some? {
      var r := RunEnd(y, q, Space);
      RunEndAll(y, q, Space);
      assert y[k - 1] == Last(t);
      assert Lower(b[0]) == 'd';
      HeaderStaysLeft(t, b, r);
      assert y[0..k] == t;
      RunEndWindow(y, 0, k, q, Space);
      DayHeaderWindow(y, 0, k, r);
      assert q > 0 ==> t[q] == y[q];
    }
  }

  /** Where an anchored header of `t` starts in a text that holds `t` at `off`, after
      the line start `a` and whitespace. */
  function AnchorIn(a: nat, off: nat, q: nat): nat {
    if q > 0 then off + q else if a == 0 then 0 else a - 1
  }

  /** An anchored header of `t` is one of the text that holds `t` at `off`, after the
      line start `a` and whitespace. */
  lemma AnchorFromWindow(c: string, a: nat, off: nat, t: string, q: nat)
    requires TitlePlaced(c, a, off, t) && q <= |t|
    ensures AnchoredDayAt(t, q).Some? ==> AnchoredDayAt(c, AnchorIn(a, off, q)).Some?
  {
    if AnchoredDayAt(t, q).Some? {
      var r := RunEnd(t, q, Space);
      RunEndAll(t, q, Space);
      DayHeaderFromWindow(c, off, off + |t|, r);
      var p := AnchorIn(a, off, q);
      forall k | p <= k < off + r
        ensures IsSpace(c[k])
      {
        if k >= off {
          assert c[k] == t[k - off];
        }
      }
      assert c[off + r] == t[r];
      RunEndExact(c, p, off + r, Space);
      assert q > 0 ==> c[off + q] == t[q];
    }
  }

  /** No anchored header starts inside the title of a cut text, since none starts
      before the first one of the cleaned text. */
  lemma NoAnchorInTitle(c: string, start: nat, a: nat, off: nat, t: string, b: string, q: nat)
    requires start <= |c| && forall p | 0 <= p < start :: AnchoredDayAt(c, p).None?
    requires off + |t| <= start && TitlePlaced(c, a, off, t)
    requires t != "" && !IsSpace(Last(t)) && q < |t|
    requires DayHeaderAt(b, 0).Some?
    ensures AnchoredDayAt(t + "\n\n" + b, q).None?
  {
    AnchorInTitle(t, b, q);
    AnchorFromWindow(c, a, off, t, q);
  }

  /** The first anchored header of a cut text with a title is at the newline that
      ends the title. */
  lemma FirstDayAfterTitle(c: string, start: nat, a: nat, off: nat, t: string, b: string)
    requires start <= |c| && forall p | 0 <= p < start :: AnchoredDayAt(c, p).None?
    requires off + |t| <= start && TitlePlaced(c, a, off, t)
    requires t != "" && !IsSpace(Last(t))
    requires DayHeaderAt(b, 0).Some?
    ensures FirstDay(t + "\n\n" + b) == Some(|t|)
  {
    var y := t + "\n\n" + b;
    var k := |t|;
    forall q | 0 <= q < k
      ensures AnchoredDayAt(y, q).None?
    {
      NoAnchorInTitle(c, start, a, off, t, b, q);
    }
    assert y[k] == '\n' && y[k + 1] == '\n' && y[k + 2] == b[0];
    assert Lower(b[0]) == 'd';
    RunEndExact(y, k, k + 2, Space);
    assert y[k + 2..|y|] == b;
    DayHeaderFromWindow(y, k + 2, |y|, 0);
    assert AnchoredDayAt(y, k).Some?;
    FirstDayIs(y, k);
  }

  /** The first anchored header is the one with none before it. */
  lemma FirstDayIs(s: string, k: nat)
    requires k < |s| && AnchoredDayAt(s, k).Some?
    requires forall q | 0 <= q < k :: AnchoredDayAt(s, q).None?
    ensures FirstDay(s) == Some(k)
  {
  }

  /** A text that opens with a day header and ends in a character that is not
      whitespace is cut to itself. */
  lemma BodyCutAgain(body: string)
    requires DayHeaderAt(body, 0).Some? && !IsSpace(Last(body))
    ensures CutAtFirstDay(body) == body
  {
    assert Lower(body[0]) == 'd';
    assert RunEnd(body, 0, Space) == 0;
    assert AnchoredDayAt(body, 0).Some?;
    assert body[..0] == "" && body[0..] == body;
    StripByUnchanged(body, Space);
  }

  /** A title that rebuilds itself, a blank line and a body that opens with the
      first day header: the cut keeps all of it. */
  lemma ShapedCutAgain(t: string, body: string)
    requires t != "" && !IsSpace(t[0]) && !IsSpace(Last(t)) && Join(TitleLines(t), "\n") == t
    requires DayHeaderAt(body, 0).Some? && !IsSpace(Last(body))
    requires FirstDay(t + "\n\n" + body) == Some(|t|)
    ensures CutAtFirstDay(t + "\n\n" + body) == t + "\n\n" + body
  {
    assert Lower(body[0]) == 'd';
    BlankSeam(t, body);
  }

  /** The title the cut keeps rebuilds itself, and the cut text's first anchored
      day header is the one right after it. */
  lemma TitledFirstDay(c: string, start: nat)
    requires start <= |c| && c != "" && !IsSpace(c[0]) && NewlinesOnly(c)
    requires TitleLines(c[..start]) != []
    requires forall p | 0 <= p < start :: AnchoredDayAt(c, p).None?
    requires DayHeaderAt(Strip(c[start..]), 0).Some?
    ensures var t := LStrip(Join(TitleLines(c[..start]), "\n"));
      && t != "" && !IsSpace(t[0]) && !IsSpace(Last(t)) && Join(TitleLines(t), "\n") == t
      && FirstDay(t + "\n\n" + Strip(c[start..])) == Some(|t|)
  {
    var t := LStrip(Join(TitleLines(c[..start]), "\n"));
    TitleTidy(c, start);
    var a, off := TitleInCleaned(c, start);
    FirstDayAfterTitle(c, start, a, off, t, Strip(c[start..]));
  }

  /** A cut text with a title is cut to itself. */
  lemma TitleCutAgain(c: string, start: nat)
    requires c != "" && !IsSpace(c[0]) && NewlinesOnly(c)
    requires FirstDay(c) == Some(start) && TitleLines(c[..start]) != []
    ensures CutAtFirstDay(CutAtFirstDay(c)) == CutAtFirstDay(c)
  {
    CutAtFirstDayShape(c);
    TitledFirstDay(c, start);
    StripEnds(c[start..]);
    ShapedCutAgain(LStrip(Join(TitleLines(c[..start]), "\n")), Strip(c[start..]));
  }

  /** A cut text without a title is cut to itself. */
  lemma UntitledCutAgain(c: string, start: nat)
    requires FirstDay(c) == Some(start) && TitleLines(c[..start]) == []
    ensures CutAtFirstDay(CutAtFirstDay(c)) == CutAtFirstDay(c)
  {
    CutAtFirstDayShape(c);
    StripEnds(c[start..]);
    BodyCutAgain(Strip(c[start..]));
  }

  /** Cutting a cut text again changes nothing, when the text starts with a
      character that is not whitespace and breaks its lines with "\n" alone. */
  lemma CutAgain(c: string)
    requires c == "" || !IsSpace(c[0])
    requires NewlinesOnly(c)
    ensures CutAtFirstDay(CutAtFirstDay(c)) == CutAtFirstDay(c)
  {
    if FirstDay(c).Some? {
      var start := FirstDay(c).value;
      if TitleLines(c[..start]) == [] {
        UntitledCutAgain(c, start);
      } else {
        TitleCutAgain(c, start);
      }
    }
  }

  /** The title the cut keeps breaks its lines with "\n" alone, has no whitespace at
      either end and rebuilds itself from its title lines. */
  lemma TitleTidy(c: string, start: nat)
    requires start <= |c| && c != "" && !IsSpace(c[0]) && NewlinesOnly(c)
    requires TitleLines(c[..start]) != []
    ensures var t := LStrip(Join(TitleLines(c[..start]), "\n"));
      && NewlinesOnly(t) && t != "" && !IsSpace(t[0]) && !IsSpace(Last(t))
      && Join(TitleLines(t), "\n") == t
  {
    var t := LStrip(Join(TitleLines(c[..start]), "\n"));
    var a, off := TitleInCleaned(c, start);
    NewlinesSlice(c, off, off + |t|);
    TitleAgain(c[..start]);
  }

  /** Text whose first anchored day header has title lines before it is cut to a
      tidy text. */
  lemma TitledCutTidy(c: string, start: nat)
    requires c != "" && !IsSpace(c[0]) && NewlinesOnly(c)
    requires FirstDay(c) == Some(start) && TitleLines(c[..start]) != []
    ensures var y := CutAtFirstDay(c);
      NewlinesOnly(y) && y != "" && !IsSpace(y[0]) && !IsSpace(Last(y))
  {
    CutAtFirstDayShape(c);
    NewlinesSlice(c, start, |c|);
    StripTidy(c[start..]);
    TitleTidy(c, start);
    SeamTidy(LStrip(Join(TitleLines(c[..start]), "\n")), Strip(c[start..]));
  }

  /** The cut text breaks its lines with "\n" alone and has no whitespace at either
      end. */
  lemma CutTidy(c: string)
    requires c == "" || (!IsSpace(c[0]) && !IsSpace(Last(c)))
    requires NewlinesOnly(c)
    ensures var y := CutAtFirstDay(c);
      NewlinesOnly(y) && (y == "" || (!IsSpace(y[0]) && !IsSpace(Last(y))))
  {
    CutAtFirstDayShape(c);
    if FirstDay(c).Some? {
      var start := FirstDay(c).value;
      if TitleLines(c[..start]) != [] {
        TitledCutTidy(c, start);
      } else {
        NewlinesSlice(c, start, |c|);
        StripTidy(c[start..]);
      }
    }
  }

  /** Sanitizing a sanitized text changes nothing, as long as the text holds no code
      fence, tool error or data JSON span for the removals to find. */
  lemma SanitizeIdempotent(x: string)
    requires StripSpans(Sanitize(x)) == Sanitize(x)
    ensures Sanitize(Sanitize(x)) == Sanitize(x)
  {
    if x != "" {
      var c := Cleaned(x);
      var y := CutAtFirstDay(c);
      CleanedNewlines(x);
      CutTidy(c);
      CleanedSettled(x);
      CutSettled(c);
      if y != "" {
        CleanedFixed(y);
        CutAgain(c);
      }
    }
  }
}
