/** `extract_days_and_questions`: reads the learning path back into one record per
    day (title, topic, video link and up to ten practice questions). A primary pass
    splits the text at day headers; when it finds no day at all, a permissive
    fallback pass slices the text at every line that looks like a day header. */
module Extractor {
  import opened Text
  import opened Patterns
  import opened UrlEncoding

  /** One day of the plan, as the application shows and tracks it. */
  datatype DayItem = DayItem(dayTitle: string, topic: string, videoLink: string, questions: seq<string>)

  const SearchPrefix: string := "https://www.youtube.com/results?search_query="
  const GenericLink: string := "https://www.youtube.com/"
  const Placeholder: string := "VIDEO_ID_HERE"
  const MaxQuestions: nat := 10

  /** What every extracted day satisfies: a title, a link to follow and at most ten
      questions, none of them empty. */
  predicate Sound(item: DayItem) {
    && item.dayTitle != ""
    && item.videoLink != ""
    && |item.questions| <= MaxQuestions
    && forall i | 0 <= i < |item.questions| :: item.questions[i] != ""
  }

  // ---------------------------------------------------------------- links

  /** The YouTube search for tutorials on a topic: the search address followed by a
      query made of URL-safe characters only. */
  function SearchLink(topic: string): (link: string)
    ensures |SearchPrefix| <= |link| && link[..|SearchPrefix|] == SearchPrefix
    ensures forall k | |SearchPrefix| <= k < |link| :: UrlSafe(link[k])
  {
    SearchPrefix + QuotePlus(topic + " tutorial")
  }

  /** The query of the search link reads back as the UTF-8 bytes of the topic and
      " tutorial". */
  lemma SearchQueryRoundTrip(topic: string)
    ensures UnquoteBytes(SearchLink(topic)[|SearchPrefix|..]) == Some(Encode(topic + " tutorial"))
  {
    assert SearchLink(topic)[|SearchPrefix|..] == QuoteBytes(Encode(topic + " tutorial"));
    QuoteRoundTrip(Encode(topic + " tutorial"));
  }

  /** `quote_plus(" ")` is "+". */
  lemma QuotedSpace()
    ensures QuotePlus(" ") == "+"
  {
    assert Encode(" ") == Utf8(' ') + Encode("");
    assert QuoteBytes([32 as byte]) == QuoteByte(32 as byte) + QuoteBytes([]);
  }

  /** A space followed by a lower-case word quotes to "+" and the word. */
  lemma QuotedSpaceWord(w: string)
    requires forall k | 0 <= k < |w| :: 'a' <= w[k] <= 'z'
    ensures QuotePlus(" " + w) == "+" + w
  {
    QuotePlusAppend(" ", w);
    QuotedSpace();
    QuotePlusSafeText(w);
  }

  lemma TutorialWord()
    ensures forall k | 0 <= k < |"tutorial"| :: 'a' <= "tutorial"[k] <= 'z'
    ensures " " + "tutorial" == " tutorial" && "+" + "tutorial" == "+tutorial"
  {
  }

  /** The search link is the prefix, the quoted topic and "+tutorial". */
  lemma SearchLinkShape(topic: string)
    ensures SearchLink(topic) == SearchPrefix + QuotePlus(topic) + "+tutorial"
  {
    QuotedTutorial(topic);
    Assoc(SearchPrefix, QuotePlus(topic), "+tutorial");
  }

  /** The topic and " tutorial" quote to the quoted topic and "+tutorial". */
  lemma QuotedTutorial(topic: string)
    ensures QuotePlus(topic + " tutorial") == QuotePlus(topic) + "+tutorial"
  {
    var w := "tutorial";
    TutorialWord();
    QuotePlusAppend(topic, " " + w);
    QuotedSpaceWord(w);
  }

  /** The URL of the first bare `https?://\S+` match, or "" when there is none. */
  function BareLink(s: string): (link: string)
    ensures link == "" <==> forall p | 0 <= p <= |s| :: BareUrlAt(s, p).None?
    ensures forall p: nat | LeftmostAt(BareUrl, s, p) :: link == s[p..UrlAt(s, p, false).value]
    ensures link != "" ==> IsUrl(link)
  {
    match FirstGroup(BareUrl, s)
    case None =>
      forall p | 0 <= p <= |s| ensures BareUrlAt(s, p).None? {
        assert MatchAt(BareUrl, s, p) == BareUrlAt(s, p);
      }
      ""
    case Some(u) =>
      var m := Search(TableOf(BareUrl, s), s, 0).value;
      assert MatchAt(BareUrl, s, m) == BareUrlAt(s, m);
      BareLinkLeftmost(s);
      UrlSpan(s, m, false);
      u
  }

  /** The bare URL is the one where the leftmost match starts. */
  lemma BareLinkLeftmost(s: string)
    ensures forall p: nat | LeftmostAt(BareUrl, s, p) :: FirstGroup(BareUrl, s) == Some(s[p..UrlAt(s, p, false).value])
  {
    forall p: nat | LeftmostAt(BareUrl, s, p) ensures FirstGroup(BareUrl, s) == Some(s[p..UrlAt(s, p, false).value]) {
      FirstGroupAt(BareUrl, s, p);
    }
  }

  /** The URL after the first "YouTube Link" label, else the first bare URL, else "".
      The labelled URL holds no whitespace, so stripping it leaves it whole. */
  function LinkIn(s: string): (link: string)
    ensures link == "" <==> forall p | 0 <= p <= |s| :: LabelledLinkAt(s, p).None? && BareUrlAt(s, p).None?
    ensures forall p: nat | LeftmostAt(LabelledLink, s, p) ::
      link == s[LabelledLinkAt(s, p).value.group..LabelledLinkAt(s, p).value.end]
    ensures (forall p | 0 <= p <= |s| :: LabelledLinkAt(s, p).None?) ==> link == BareLink(s)
    ensures link != "" ==> IsUrl(link)
  {
    LabelledLeftmost(s);
    match FirstGroup(LabelledLink, s)
    case Some(u) =>
      LabelledUrl(s);
      Strip(u)
    case None =>
      forall p | 0 <= p <= |s| ensures LabelledLinkAt(s, p).None? {
        assert MatchAt(LabelledLink, s, p) == LabelledLinkAt(s, p);
      }
      BareLink(s)
  }

  /** The labelled URL is the one where the leftmost labelled match starts. */
  lemma LabelledLeftmost(s: string)
    ensures forall p: nat | LeftmostAt(LabelledLink, s, p) ::
      FirstGroup(LabelledLink, s) == Some(s[LabelledLinkAt(s, p).value.group..LabelledLinkAt(s, p).value.end])
  {
    forall p: nat | LeftmostAt(LabelledLink, s, p)
      ensures FirstGroup(LabelledLink, s) == Some(s[LabelledLinkAt(s, p).value.group..LabelledLinkAt(s, p).value.end])
    {
      FirstGroupAt(LabelledLink, s, p);
    }
  }

  /** The group of the first labelled match is a URL, which stripping leaves whole. */
  lemma LabelledUrl(s: string)
    requires FirstGroup(LabelledLink, s).Some?
    ensures IsUrl(FirstGroup(LabelledLink, s).value)
    ensures Strip(FirstGroup(LabelledLink, s).value) == FirstGroup(LabelledLink, s).value
  {
    var m := Search(TableOf(LabelledLink, s), s, 0).value;
    assert MatchAt(LabelledLink, s, m) == LabelledLinkAt(s, m);
    var h := LabelledLinkAt(s, m).value;
    UrlSpan(s, h.group, true);
    var u := s[h.group..h.end];
    StripByUnchanged(u, Space);
  }

  /** The placeholder fix and then the fallback for a missing link, as the extractor
      applies them: a link that holds the placeholder, or no link at all, becomes the
      search link for the topic, or the YouTube home page without a topic. */
  function ResolveLink(found: string, topic: string): (link: string)
    ensures link != ""
    ensures found != "" && !Contains(found, Placeholder) ==> link == found
    ensures found == "" || Contains(found, Placeholder) ==>
      link == if topic != "" then SearchLink(topic) else GenericLink
  {
    var fixed :=
      if Contains(found, Placeholder) then (if topic != "" then SearchLink(topic) else GenericLink)
      else found;
    if fixed == "" && topic != "" then SearchLink(topic)
    else if fixed == "" then GenericLink
    else fixed
  }

  // ---------------------------------------------------------------- topic

  /** The first `Topic\s*:\s*([^\n]+)` group, stripped; "" when there is none. */
  function TopicOf(s: string): (topic: string)
    ensures topic != "" ==> !IsSpace(topic[0]) && !IsSpace(topic[|topic| - 1])
    ensures topic != "" ==> exists p | 0 <= p <= |s| :: TopicLabelAt(s, p).Some?
    ensures (forall p | 0 <= p <= |s| :: TopicLabelAt(s, p).None?) ==> topic == ""
    ensures forall p: nat | LeftmostAt(TopicLabel, s, p) ::
      topic == Strip(s[TopicLabelAt(s, p).value.group..TopicLabelAt(s, p).value.end])
  {
    TopicLeftmost(s);
    match FirstGroup(TopicLabel, s)
    case None =>
      forall p | 0 <= p <= |s| ensures TopicLabelAt(s, p).None? {
        assert MatchAt(TopicLabel, s, p) == TopicLabelAt(s, p);
      }
      ""
    case Some(g) =>
      var m := Search(TableOf(TopicLabel, s), s, 0).value;
      assert MatchAt(TopicLabel, s, m) == TopicLabelAt(s, m);
      Strip(g)
  }

  /** The topic group is the one where the leftmost "Topic:" match starts. */
  lemma TopicLeftmost(s: string)
    ensures forall p: nat | LeftmostAt(TopicLabel, s, p) ::
      FirstGroup(TopicLabel, s) == Some(s[TopicLabelAt(s, p).value.group..TopicLabelAt(s, p).value.end])
  {
    forall p: nat | LeftmostAt(TopicLabel, s, p)
      ensures FirstGroup(TopicLabel, s) == Some(s[TopicLabelAt(s, p).value.group..TopicLabelAt(s, p).value.end])
    {
      FirstGroupAt(TopicLabel, s, p);
    }
  }

  /** The topic is a piece of a single line. */
  lemma TopicOneLine(s: string)
    ensures forall k | 0 <= k < |TopicOf(s)| :: TopicOf(s)[k] != '\n'
  {
    match FirstGroup(TopicLabel, s)
    case None =>
    case Some(g) =>
      TopicGroupOneLine(s);
      StripByChars(g, Space);
  }

  /** The matched `Topic:` group holds no newline. */
  lemma TopicGroupOneLine(s: string)
    ensures FirstGroup(TopicLabel, s).Some? ==>
      forall k | 0 <= k < |FirstGroup(TopicLabel, s).value| :: FirstGroup(TopicLabel, s).value[k] != '\n'
  {
    if FirstGroup(TopicLabel, s).Some? {
      var m := Search(TableOf(TopicLabel, s), s, 0).value;
      assert MatchAt(TopicLabel, s, m) == TopicLabelAt(s, m);
    }
  }

  // ---------------------------------------------------------------- questions

  /** `re.sub(r"^\d+\.?\s*", "", line)`: drops a leading number, the dot after it
      and the whitespace that follows. */
  function DropNumber(line: string): (r: string)
    ensures |r| <= |line| && r == line[|line| - |r|..]
    ensures line == "" || !IsDigit(line[0]) ==> r == line
    ensures line != "" && IsDigit(line[0]) ==> |r| < |line|
  {
    if line == "" || !IsDigit(line[0]) then line
    else
      var d := RunEnd(line, 0, Digit);
      var d' := if d < |line| && line[d] == '.' then d + 1 else d;
      line[RunEnd(line, d', Space)..]
  }

  /** One line of the questions section, cleaned: `strip(" -\t")`, then the number.
      What is left is a piece of the line that ends in no list padding; a line that
      has no padding at either end and does not start with a digit stays whole. */
  function CleanQuestion(line: string): (q: string)
    ensures |q| <= |line|
    ensures q != "" ==> !In(q[|q| - 1], ListPad)
    ensures line != "" && !In(line[0], ListPad) && !In(line[|line| - 1], ListPad) && !IsDigit(line[0]) ==> q == line
  {
    var x := StripBy(line, ListPad);
    assert line != "" && !In(line[0], ListPad) && !In(line[|line| - 1], ListPad) ==> x == line by {
      if line != "" && !In(line[0], ListPad) && !In(line[|line| - 1], ListPad) {
        StripByUnchanged(line, ListPad);
      }
    }
    var q := DropNumber(x);
    assert q != "" ==> q[|q| - 1] == x[|x| - 1];
    q
  }

  /** The cleaned lines that are not empty, in their order. */
  function QuestionsOf(lines: seq<string>): (qs: seq<string>)
    ensures |qs| <= |lines|
    decreases |lines|
  {
    if lines == [] then [] else QuestionsOf(lines[..|lines| - 1]) + QuestionOf(lines[|lines| - 1])
  }

  /** What one line adds to the questions: its cleaned text, unless that is empty. */
  function QuestionOf(line: string): (q: seq<string>)
    ensures |q| <= 1 && (q != [] ==> q[0] != "")
  {
    var c := CleanQuestion(line);
    if c == "" then [] else [c]
  }

  /** No question is empty. */
  lemma {:induction false} QuestionsNonEmpty(lines: seq<string>)
    ensures forall i | 0 <= i < |QuestionsOf(lines)| :: QuestionsOf(lines)[i] != ""
    decreases |lines|
  {
    if lines != [] {
      QuestionsNonEmpty(lines[..|lines| - 1]);
    }
  }

  /** Every question is the cleaned text of one of the lines. */
  lemma {:induction false} QuestionsFromLines(lines: seq<string>)
    ensures forall i | 0 <= i < |QuestionsOf(lines)| :: exists j | 0 <= j < |lines| :: QuestionsOf(lines)[i] == CleanQuestion(lines[j])
    decreases |lines|
  {
    if lines != [] {
      var n := |lines| - 1;
      var init := lines[..n];
      var qs, qi := QuestionsOf(lines), QuestionsOf(init);
      assert qs == qi + QuestionOf(lines[n]);
      QuestionsFromLines(init);
      forall i | 0 <= i < |qs|
        ensures exists j | 0 <= j < |lines| :: qs[i] == CleanQuestion(lines[j])
      {
        if i < |qi| {
          var j :| 0 <= j < |init| && qi[i] == CleanQuestion(init[j]);
          assert qs[i] == CleanQuestion(lines[j]);
        } else {
          assert qs[i] == CleanQuestion(lines[n]);
        }
      }
    } else {
      assert |QuestionsOf(lines)| == 0;
    }
  }

  /** The questions of a questions section: at most one per line, none empty, each
      the cleaned text of one of the lines. */
  function QuestionsIn(qText: string): (qs: seq<string>)
    ensures |qs| <= |SplitLines(qText)|
    ensures forall i | 0 <= i < |qs| :: qs[i] != "" && exists j | 0 <= j < |SplitLines(qText)| :: qs[i] == CleanQuestion(SplitLines(qText)[j])
  {
    QuestionsNonEmpty(SplitLines(qText));
    QuestionsFromLines(SplitLines(qText));
    QuestionsOf(SplitLines(qText))
  }

  /** One more line through the question filter. */
  lemma QuestionsStep(lines: seq<string>, i: nat)
    requires i < |lines|
    ensures QuestionsOf(lines[..i + 1]) == QuestionsOf(lines[..i]) + QuestionOf(lines[i])
  {
    assert lines[..i + 1][..i] == lines[..i];
  }

  /** The question filter judges every line on its own. */
  lemma {:induction false} QuestionsOfAppend(a: seq<string>, b: seq<string>)
    ensures QuestionsOf(a + b) == QuestionsOf(a) + QuestionsOf(b)
    decreases |b|
  {
    if b == [] {
      assert a + b == a;
    } else {
      var b', x := b[..|b| - 1], b[|b| - 1];
      assert (a + b)[..|a + b| - 1] == a + b' && (a + b)[|a + b| - 1] == x;
      assert QuestionsOf(a + b) == QuestionsOf(a + b') + QuestionOf(x);
      QuestionsOfAppend(a, b');
      Assoc(QuestionsOf(a), QuestionsOf(b'), QuestionOf(x));
    }
  }

  /** A non-empty run of decimal digits, such as `str(n)`. */
  predicate IsNumeral(num: string) {
    num != "" && forall k | 0 <= k < |num| :: IsDigit(num[k])
  }

  /** `re.sub(r"^\d+\.?\s*", "", ...)` undoes the numbering "num. " of a question
      that does not begin with whitespace. */
  lemma DropNumberRoundTrip(num: string, q: string)
    requires IsNumeral(num) && (q == "" || !IsSpace(q[0]))
    ensures DropNumber(num + ". " + q) == q
  {
    var line := num + ". " + q;
    var d := |num|;
    assert line == num + (". " + q);
    RunEndFull(num, 0, Digit);
    RunEndAppend(num, ". " + q, 0, Digit);
    assert line[d] == '.' && line[d + 1] == ' ';
    assert RunEnd(line, d + 1, Space) == d + 2 by {
      assert q != "" ==> line[d + 2] == q[0];
    }
    assert line[d + 2..] == q;
  }

  /** A question the cleaning gives back whole: not empty, no whitespace in front
      and no list padding at its end. */
  predicate Cleanable(q: string) {
    q != "" && !IsSpace(q[0]) && !In(q[|q| - 1], ListPad)
  }

  /** A cleanable question that also fits on one line. */
  predicate PlainQuestion(q: string) {
    Cleanable(q) && forall k | 0 <= k < |q| :: !IsLineBreak(q[k])
  }

  /** The questions numbered "1. ", "2. ", ... one per line. */
  function Numbered(qs: seq<string>): (lines: seq<string>)
    ensures |lines| == |qs|
  {
    seq(|qs|, i requires 0 <= i < |qs| => Decimal(i + 1) + ". " + qs[i])
  }

  /** A numbered line cleans back to its question. */
  lemma CleanNumbered(num: string, q: string)
    requires IsNumeral(num) && Cleanable(q)
    ensures CleanQuestion(num + ". " + q) == q
  {
    var line := num + ". " + q;
    assert line[|line| - 1] == q[|q| - 1];
    StripByUnchanged(line, ListPad);
    DropNumberRoundTrip(num, q);
  }

  /** Cleaning numbered lines gives the questions back, whatever the numbers. */
  lemma {:induction false} NumberedLinesRoundTrip(lines: seq<string>, nums: seq<string>, qs: seq<string>)
    requires |lines| == |nums| == |qs|
    requires forall i | 0 <= i < |qs| :: IsNumeral(nums[i]) && Cleanable(qs[i]) && lines[i] == nums[i] + ". " + qs[i]
    ensures QuestionsOf(lines) == qs
    decreases |qs|
  {
    if qs != [] {
      var n := |qs| - 1;
      NumberedLinesRoundTrip(lines[..n], nums[..n], qs[..n]);
      CleanNumbered(nums[n], qs[n]);
      assert QuestionOf(lines[n]) == [qs[n]];
      FrontLast(qs);
    }
  }

  /** A numbered plain question holds no line break. */
  lemma NumberedLineUnbroken(num: string, q: string)
    requires IsNumeral(num) && PlainQuestion(q)
    ensures var line := num + ". " + q; forall k | 0 <= k < |line| :: !IsLineBreak(line[k])
  {
    var line := num + ". " + q;
    forall k | 0 <= k < |line| ensures !IsLineBreak(line[k]) {
      if k < |num| {
        assert line[k] == num[k];
      } else if k >= |num| + 2 {
        assert line[k] == q[k - |num| - 2];
      }
    }
  }

  /** Numbered plain questions satisfy what splitting their join needs. */
  lemma NumberedUnbroken(qs: seq<string>, nums: seq<string>)
    requires |nums| == |qs|
    requires forall i | 0 <= i < |qs| :: PlainQuestion(qs[i]) && IsNumeral(nums[i])
    ensures var lines := seq(|qs|, i requires 0 <= i < |qs| => nums[i] + ". " + qs[i]);
      && (forall i | 0 <= i < |lines| :: forall k | 0 <= k < |lines[i]| :: !IsLineBreak(lines[i][k]))
      && (lines != [] ==> lines[|lines| - 1] != "")
  {
    forall i | 0 <= i < |qs|
      ensures var line := nums[i] + ". " + qs[i]; forall k | 0 <= k < |line| :: !IsLineBreak(line[k])
    {
      NumberedLineUnbroken(nums[i], qs[i]);
    }
  }

  /** A numbered list of plain questions, one per line, parses back to the list. */
  lemma QuestionsRoundTrip(qs: seq<string>)
    requires forall i | 0 <= i < |qs| :: PlainQuestion(qs[i])
    ensures QuestionsIn(Join(Numbered(qs), "\n")) == qs
  {
    var nums := seq(|qs|, i requires 0 <= i < |qs| => Decimal(i + 1));
    var lines := seq(|qs|, i requires 0 <= i < |qs| => nums[i] + ". " + qs[i]);
    assert lines == Numbered(qs);
    NumberedUnbroken(qs, nums);
    SplitLinesJoin(lines);
    NumberedLinesRoundTrip(lines, nums, qs);
  }

  /** The question loop of the extractor, over the lines of a section. */
  method CollectQuestions(qText: string) returns (qs: seq<string>)
    ensures qs == QuestionsIn(qText)
  {
    var lines := SplitLines(qText);
    qs := [];
    var i := 0;
    while i < |lines|
      invariant 0 <= i <= |lines|
      invariant qs == QuestionsOf(lines[..i])
    {
      var line := StripBy(lines[i], ListPad);
      line := DropNumber(line);
      QuestionsStep(lines, i);
      assert QuestionOf(lines[i]) == if line == "" then [] else [line];
      if line != "" {
        qs := qs + [line];
      }
      i := i + 1;
    }
    assert lines[..i] == lines;
  }

  // ---------------------------------------------------------------- primary pass

  /** `re.sub(r"\s+(Day\s+\d+\s*[:\-])", r"\n\1", text)`: every day header after
      whitespace is moved to a line of its own. A text with no such header is left
      as it is. */
  function Canonical(text: string): (c: string)
    ensures (forall p | 0 <= p <= |text| :: InlineDayAt(text, p).None?) ==> c == text
  {
    var t := TableOf(InlineDay, text);
    assert (forall p | 0 <= p <= |text| :: InlineDayAt(text, p).None?) ==> Search(t, text, 0).None?;
    assert Search(t, text, 0).None? ==> Sub(InlineDay, text) == text by {
      if Search(t, text, 0).None? {
        ReplaceNoMatch(InlineDay, t, text, 0);
      }
    }
    Sub(InlineDay, text)
  }

  /** The canonical text is the pieces between the whitespace-and-header matches,
      each match written back as a newline and its header: the whitespace in front of
      every header becomes one "\n". */
  lemma CanonicalWeave(text: string)
    ensures var t := TableOf(InlineDay, text); var ms := FindAll(t, text, 0);
      var reps := Replacements(InlineDay, t, text, ms);
      && Canonical(text) == Weave(SplitAll(InlineDay, text), reps)
      && forall i | 0 <= i < |ms| :: var g := RunEnd(text, ms[i], Space);
           && IsSpace(text[ms[i]]) && DayHeaderAt(text, g).Some?
           && reps[i] == "\n" + text[g..DayHeaderAt(text, g).value]
  {
    SubWeave(InlineDay, text);
    InlineReplacements(text);
  }

  /** Each match of `InlineDay` is whitespace and a day header, written back as a
      newline and the header. */
  lemma InlineReplacements(text: string)
    ensures var t := TableOf(InlineDay, text); var ms := FindAll(t, text, 0);
      var reps := Replacements(InlineDay, t, text, ms);
      forall i | 0 <= i < |ms| :: var g := RunEnd(text, ms[i], Space);
        && IsSpace(text[ms[i]]) && DayHeaderAt(text, g).Some?
        && reps[i] == "\n" + text[g..DayHeaderAt(text, g).value]
  {
    var t := TableOf(InlineDay, text);
    var ms := FindAll(t, text, 0);
    forall i | 0 <= i < |ms|
      ensures t[ms[i]] == InlineDayAt(text, ms[i])
    {
      assert t[ms[i]] == MatchAt(InlineDay, text, ms[i]);
    }
  }

  /** The blocks of the canonical text, split at every newline that a day header
      follows: joined with "\n" they give the canonical text back, and there is one
      more block than such newlines. */
  function DayBlocks(text: string): (blocks: seq<string>)
    ensures Join(blocks, "\n") == Canonical(text)
    ensures var c := Canonical(text); |blocks| == |FindAll(TableOf(DayBreak, c), c, 0)| + 1
  {
    SplitAllDayBreak(Canonical(text));
    SplitAll(DayBreak, Canonical(text))
  }

  /** `.*` can run from `w` to the end of the block: no "\n" lies after `w`. */
  predicate OneLineFrom(block: string, w: nat)
    requires w <= |block|
  {
    forall k | w <= k < |block| :: block[k] != '\n'
  }

  /** The header through its separator is the stripped text up to the whitespace
      that follows the header. */
  lemma HeaderTitle(block: string)
    requires DayHeaderAt(block, 0).Some?
    ensures var e := DayHeaderAt(block, 0).value; Strip(block[..RunEnd(block, e, Space)]) == block[..e]
  {
    var e := DayHeaderAt(block, 0).value;
    var w := RunEnd(block, e, Space);
    var x := block[..w];
    RunEndAll(block, e, Space);
    assert forall k | e <= k < w :: In(x[k], Space);
    RunStartExact(x, 0, e, w, Space);
    StripKeepsStart(x, Space);
  }

  /** `re.match(r"^(Day\s+\d+\s*[:\-]\s*)(.*)$", block)` on a block that opens
      with a day header, as (title, rest). Without DOTALL the match fails when a
      newline follows the header's trailing whitespace; the title is then "Day" and
      the rest is the whole block. */
  function TitleSplit(block: string): (parts: (string, string))
    requires DayHeaderAt(block, 0).Some?
    requires Strip(block) == block
    ensures var e := DayHeaderAt(block, 0).value; var w := RunEnd(block, e, Space);
      && (OneLineFrom(block, w) ==> parts == (block[..e], Strip(block[w..])))
      && (!OneLineFrom(block, w) ==> parts == ("Day", block))
  {
    var e := DayHeaderAt(block, 0).value;
    var w := RunEnd(block, e, Space);
    HeaderTitle(block);
    if OneLineFrom(block, w) then (Strip(block[..w]), Strip(block[w..])) else ("Day", block)
  }

  /** The record the primary pass makes of a stripped block that opens with a day
      header. Every caller strips the block first; on an unstripped block ending in
      "\n", Python's `$` would match before that newline, which `TitleSplit` does not
      model. */
  function DayFromBlock(block: string): (item: DayItem)
    requires DayHeaderAt(block, 0).Some?
    requires Strip(block) == block
    ensures Sound(item)
  {
    var (title, rest) := TitleSplit(block);
    var topic := TopicOf(rest);
    var questions :=
      (match FirstGroup(QuestionsLabel, rest)
       case Some(q) => QuestionsIn(Strip(q))
       case None => []);
    DayItem(title, topic, ResolveLink(LinkIn(rest), topic), Take(questions, MaxQuestions))
  }

  /** The record of one block from `re.split`: one when the stripped block opens with
      a day header, none otherwise. */
  function BlockItem(raw: string): (items: seq<DayItem>)
    ensures items != [] <==> DayHeaderAt(Strip(raw), 0).Some?
    ensures |items| <= 1
  {
    var b := Strip(raw);
    StripIdempotent(raw);
    if DayHeaderAt(b, 0).Some? then [DayFromBlock(b)] else []
  }

  /** The records of the blocks that, once stripped, open with a day header. */
  function PrimaryItems(blocks: seq<string>): (items: seq<DayItem>)
    ensures |items| <= |blocks|
    decreases |blocks|
  {
    if blocks == [] then []
    else PrimaryItems(blocks[..|blocks| - 1]) + BlockItem(blocks[|blocks| - 1])
  }

  /** One more block through the primary pass. */
  lemma PrimaryStep(blocks: seq<string>, i: nat)
    requires i < |blocks|
    ensures PrimaryItems(blocks[..i + 1]) == PrimaryItems(blocks[..i]) + BlockItem(blocks[i])
  {
    assert blocks[..i + 1][..i] == blocks[..i];
  }

  /** A block that opens with a header adds the record parsed from it. */
  lemma PrimaryTaken(blocks: seq<string>, i: nat)
    requires i < |blocks| && DayHeaderAt(Strip(blocks[i]), 0).Some?
    ensures PrimaryItems(blocks[..i + 1]) == PrimaryItems(blocks[..i]) + [DayFromBlock(Strip(blocks[i]))]
  {
    PrimaryStep(blocks, i);
  }

  /** A block that does not open with a header adds nothing. */
  lemma PrimarySkipped(blocks: seq<string>, i: nat)
    requires i < |blocks| && DayHeaderAt(Strip(blocks[i]), 0).None?
    ensures PrimaryItems(blocks[..i + 1]) == PrimaryItems(blocks[..i])
  {
    PrimaryStep(blocks, i);
  }

  /** The primary pass judges every block on its own, so the records come in block
      order, one per block that opens with a header. */
  lemma {:induction false} PrimaryAppend(a: seq<string>, b: seq<string>)
    ensures PrimaryItems(a + b) == PrimaryItems(a) + PrimaryItems(b)
    decreases |b|
  {
    if b == [] {
      assert a + b == a;
    } else {
      var b' := b[..|b| - 1];
      assert (a + b)[..|a + b| - 1] == a + b' && (a + b)[|a + b| - 1] == b[|b| - 1];
      var more := BlockItem(b[|b| - 1]);
      assert PrimaryItems(a + b) == PrimaryItems(a + b') + more;
      assert PrimaryItems(b) == PrimaryItems(b') + more;
      PrimaryAppend(a, b');
      Assoc(PrimaryItems(a), PrimaryItems(b'), more);
    }
  }

  /** Every record of the primary pass is sound. */
  lemma {:induction false} PrimarySound(blocks: seq<string>)
    ensures forall i | 0 <= i < |PrimaryItems(blocks)| :: Sound(PrimaryItems(blocks)[i])
    decreases |blocks|
  {
    if blocks != [] {
      PrimarySound(blocks[..|blocks| - 1]);
    }
  }

  // ---------------------------------------------------------------- fallback pass

  /** The day title the fallback derives from a block: the first line up to any
      "Topic:", stripped, or "Day" when that leaves nothing. */
  function FallbackTitle(block: string): (title: string)
    ensures title != "" && !IsSpace(title[0]) && !IsSpace(title[|title| - 1])
    ensures var l := if block == "" then "" else Before(SplitLines(block)[0], "Topic:");
      && (Strip(l) != "" ==> title == Strip(l))
      && (Strip(l) == "" ==> title == "Day")
  {
    var header := if block == "" then "Day" else SplitLines(block)[0];
    var t := Strip(Before(header, "Topic:"));
    if t == "" then "Day" else t
  }

  /** The fallback title stays on one line. */
  lemma FallbackTitleOneLine(block: string)
    ensures var t := FallbackTitle(block); forall k | 0 <= k < |t| :: !IsLineBreak(t[k])
  {
    if block != "" {
      var header := SplitLines(block)[0];
      var b := Before(header, "Topic:");
      assert forall k | 0 <= k < |b| :: b[k] == header[k];
      StripByChars(b, Space);
    }
  }

  /** The fallback title holds no "Topic:". */
  lemma FallbackTitleNoTopic(block: string)
    ensures forall q: nat :: !LitAt(FallbackTitle(block), q, "Topic:")
  {
    if block != "" {
      StripBeforeNoLit(SplitLines(block)[0], "Topic:");
    }
  }

  /** The record the fallback makes of a stripped block. Unlike the primary pass, it
      takes the first bare URL only and does not strip the questions section. */
  function DayFromLooseBlock(block: string): (item: DayItem)
    ensures Sound(item)
  {
    var topic := TopicOf(block);
    var questions :=
      (match FirstGroup(QuestionsLabel, block)
       case Some(q) => QuestionsIn(q)
       case None => []);
    DayItem(FallbackTitle(block), topic, ResolveLink(BareLink(block), topic), Take(questions, MaxQuestions))
  }

  /** The starts of the `(?im)^\s*Day\s+\d+\s*[:\-]?.*$` matches, in order. */
  function LooseStarts(text: string): (starts: seq<nat>)
    ensures Ascending(starts, |text|)
  {
    FindAll(TableOf(LooseDay, text), text, 0)
  }

  /** Positions inside the text, strictly increasing. */
  predicate Ascending(starts: seq<nat>, len: nat) {
    && (forall i | 0 <= i < |starts| :: starts[i] < len)
    && (forall i | 0 < i < |starts| :: starts[i - 1] < starts[i])
  }

  /** Spans that lie inside a text of length `len`. */
  predicate WithinText(spans: seq<(nat, nat)>, len: nat) {
    forall i | 0 <= i < |spans| :: spans[i].0 <= spans[i].1 <= len
  }

  /** Each header's span runs to the next header, the last one to the end of the text. */
  function Spans(starts: seq<nat>, len: nat): (spans: seq<(nat, nat)>)
    requires Ascending(starts, len)
    ensures |spans| == |starts| && WithinText(spans, len)
    ensures forall i | 0 <= i < |spans| :: spans[i].0 == starts[i] < spans[i].1
    ensures forall i | 0 < i < |spans| :: spans[i - 1].1 == spans[i].0
    ensures spans != [] ==> spans[|spans| - 1].1 == len
  {
    seq(|starts|, i requires 0 <= i < |starts| => (starts[i], if i + 1 < |starts| then starts[i + 1] else len))
  }

  /** The texts of consecutive spans. */
  function Pieces(text: string, spans: seq<(nat, nat)>): string
    requires WithinText(spans, |text|)
    decreases |spans|
  {
    if spans == [] then "" else text[spans[0].0..spans[0].1] + Pieces(text, spans[1..])
  }

  /** The spans cover the text from the first header to the end, each character once. */
  lemma {:induction false} SpansCover(text: string, spans: seq<(nat, nat)>)
    requires WithinText(spans, |text|) && spans != []
    requires forall i | 0 < i < |spans| :: spans[i - 1].1 == spans[i].0
    requires spans[|spans| - 1].1 == |text|
    ensures Pieces(text, spans) == text[spans[0].0..]
    decreases |spans|
  {
    if |spans| == 1 {
      assert Pieces(text, spans[1..]) == "";
    } else {
      var rest := spans[1..];
      assert forall i | 0 < i < |rest| :: rest[i - 1].1 == rest[i].0 by {
        assert forall i | 0 <= i < |rest| :: rest[i] == spans[i + 1];
      }
      SpansCover(text, rest);
      assert text[spans[0].0..] == text[spans[0].0..spans[0].1] + text[spans[0].1..];
    }
  }

  /** The fallback records, one per span. */
  function FallbackItems(text: string, spans: seq<(nat, nat)>): (items: seq<DayItem>)
    requires WithinText(spans, |text|)
    ensures |items| == |spans|
  {
    seq(|spans|, i requires 0 <= i < |spans| => DayFromLooseBlock(Strip(text[spans[i].0..spans[i].1])))
  }

  // ---------------------------------------------------------------- the extractor

  /** `extract_days_and_questions(text)`: the primary records, or the fallback
      records when the primary pass finds none. */
  function Extract(text: string): (items: seq<DayItem>)
    ensures text == "" ==> items == []
  {
    if text == "" then []
    else
      var primary := PrimaryItems(DayBlocks(text));
      if primary != [] then primary
      else FallbackItems(text, Spans(LooseStarts(text), |text|))
  }

  /** Every extracted day is sound: it has a title, a link and at most ten non-empty
      questions. */
  lemma ExtractSound(text: string)
    ensures forall i | 0 <= i < |Extract(text)| :: Sound(Extract(text)[i])
  {
    if text != "" {
      PrimarySound(DayBlocks(text));
    }
  }

  /** When the primary pass finds nothing, there is one record per loose header, made
      from the text between that header and the next. */
  lemma ExtractFallback(text: string)
    requires text != "" && PrimaryItems(DayBlocks(text)) == []
    ensures var starts := LooseStarts(text); var items := Extract(text);
      && |items| == |starts|
      && forall i | 0 <= i < |starts| ::
           var end := if i + 1 < |starts| then starts[i + 1] else |text|;
           items[i] == DayFromLooseBlock(Strip(text[starts[i]..end]))
  {
    ExtractIsFallback(text);
    FallbackBySpan(text, LooseStarts(text));
  }

  /** With no primary record, the extractor returns the fallback records. */
  lemma ExtractIsFallback(text: string)
    requires text != "" && PrimaryItems(DayBlocks(text)) == []
    ensures Extract(text) == FallbackItems(text, Spans(LooseStarts(text), |text|))
  {
  }

  /** The fallback record of each header is made from the text between that header
      and the next. */
  lemma FallbackBySpan(text: string, starts: seq<nat>)
    requires Ascending(starts, |text|)
    ensures var items := FallbackItems(text, Spans(starts, |text|));
      && |items| == |starts|
      && forall i | 0 <= i < |starts| ::
           var end := if i + 1 < |starts| then starts[i + 1] else |text|;
           items[i] == DayFromLooseBlock(Strip(text[starts[i]..end]))
  {
    var spans := Spans(starts, |text|);
    forall i | 0 <= i < |starts|
      ensures spans[i] == (starts[i], if i + 1 < |starts| then starts[i + 1] else |text|)
    {
    }
  }

  /** A text with a line that looks like a day header yields at least one record. */
  lemma ExtractFindsDay(text: string, p: nat)
    requires p <= |text| && LooseDayAt(text, p).Some?
    ensures Extract(text) != []
  {
    var t := TableOf(LooseDay, text);
    assert t[p] == MatchAt(LooseDay, text, p);
    assert Search(t, text, 0).Some?;
  }

  /** The primary pass for one block, step by step as the program runs it. */
  method ParseDayBlock(block: string) returns (item: DayItem)
    requires DayHeaderAt(block, 0).Some?
    requires Strip(block) == block
    ensures item == DayFromBlock(block)
  {
    var dayTitle, rest := "Day", block;
    var e := DayHeaderAt(block, 0).value;
    var w := RunEnd(block, e, Space);
    if OneLineFrom(block, w) {
      dayTitle, rest := Strip(block[..w]), Strip(block[w..]);
    }
    var topic := TopicOf(rest);
    var videoLink := LinkIn(rest);
    if Contains(videoLink, Placeholder) {
      videoLink := if topic != "" then SearchLink(topic) else GenericLink;
    }
    var questions: seq<string> := [];
    var section := FirstGroup(QuestionsLabel, rest);
    if section.Some? {
      questions := CollectQuestions(Strip(section.value));
    }
    if videoLink == "" && topic != "" {
      videoLink := SearchLink(topic);
    } else if videoLink == "" {
      videoLink := GenericLink;
    }
    item := DayItem(dayTitle, topic, videoLink, Take(questions, MaxQuestions));
  }

  /** The fallback pass for one block, step by step. */
  method ParseLooseBlock(block: string) returns (item: DayItem)
    ensures item == DayFromLooseBlock(block)
  {
    var header := if block == "" then "Day" else SplitLines(block)[0];
    var dayTitle := Strip(Before(header, "Topic:"));
    var topic := TopicOf(block);
    var videoLink := BareLink(block);
    if Contains(videoLink, Placeholder) {
      videoLink := if topic != "" then SearchLink(topic) else GenericLink;
    }
    var questions: seq<string> := [];
    var section := FirstGroup(QuestionsLabel, block);
    if section.Some? {
      questions := CollectQuestions(section.value);
    }
    if videoLink == "" && topic != "" {
      videoLink := SearchLink(topic);
    } else if videoLink == "" {
      videoLink := GenericLink;
    }
    item := DayItem(if dayTitle == "" then "Day" else dayTitle, topic, videoLink, Take(questions, MaxQuestions));
  }

  /** The primary loop over the blocks. */
  method PrimaryPass(blocks: seq<string>) returns (results: seq<DayItem>)
    ensures results == PrimaryItems(blocks)
  {
    results := [];
    var i := 0;
    while i < |blocks|
      invariant 0 <= i <= |blocks|
      invariant results == PrimaryItems(blocks[..i])
    {
      var block := Strip(blocks[i]);
      if DayHeaderAt(block, 0).Some? {
        StripIdempotent(blocks[i]);
        var item := ParseDayBlock(block);
        PrimaryTaken(blocks, i);
        results := results + [item];
      } else {
        PrimarySkipped(blocks, i);
      }
      i := i + 1;
    }
    assert blocks[..i] == blocks;
  }

  /** The loop that pairs every header start with the start of the next header. */
  method HeaderSpans(starts: seq<nat>, len: nat) returns (spans: seq<(nat, nat)>)
    requires Ascending(starts, len)
    ensures spans == Spans(starts, len)
  {
    spans := [];
    var i := 0;
    while i < |starts|
      invariant 0 <= i <= |starts|
      invariant spans == Spans(starts, len)[..i]
    {
      var end := if i + 1 < |starts| then starts[i + 1] else len;
      spans := spans + [(starts[i], end)];
      i := i + 1;
    }
  }

  /** The fallback loop over the spans. */
  method FallbackPass(text: string, spans: seq<(nat, nat)>) returns (fallback: seq<DayItem>)
    requires WithinText(spans, |text|)
    ensures fallback == FallbackItems(text, spans)
  {
    ghost var all := FallbackItems(text, spans);
    fallback := [];
    var i := 0;
    while i < |spans|
      invariant 0 <= i <= |spans|
      invariant fallback == all[..i]
    {
      var item := ParseLooseBlock(Strip(text[spans[i].0..spans[i].1]));
      assert item == all[i];
      PrefixNext(all, i);
      fallback := fallback + [item];
      i := i + 1;
    }
    assert all[..i] == all;
  }

  /** The extractor as the program runs it: the primary loop, and the fallback loops
      when it found nothing. */
  method ExtractDaysAndQuestions(text: string) returns (items: seq<DayItem>)
    ensures items == Extract(text)
  {
    if text == "" {
      return [];
    }
    items := PrimaryPass(DayBlocks(text));
    if items != [] {
      return;
    }
    var spans := HeaderSpans(LooseStarts(text), |text|);
    items := FallbackPass(text, spans);
  }
}
