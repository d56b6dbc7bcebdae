# Learning Path Generator — verified model of the text pipeline and the stores

The application asks an AI agent for a day-by-day learning plan. It keeps the
user-facing part of the agent's answer and reads it back into one record per day:
a title, a topic, a video link and up to ten practice questions. It tracks which
days the learner has completed, and it keeps a history of generated plans with
simple usage analytics.

This project models the core of that application in Dafny and proves properties
of the model:

- `text.dfy` (`Text`): the Python `str` operations the pipeline relies on, with
  their exact semantics over ASCII. These are `strip`, `splitlines`, `join`,
  `find`/`in`, `split(...)[0]`, slicing and `str(n)`.
- `patterns.dfy` (`Patterns`): the regular expressions that `re.search`, `re.sub`,
  `re.split` and `re.finditer` run over a whole text. Each is a matcher that ends
  where Python's backtracking engine ends. On top of the matchers sit the leftmost
  `re.search`, `re.sub`, `re.split` and `re.finditer`. Four patterns that are only
  matched at a known place are written out where they are used instead:
  - the trace-line test of utils.py:181 is `Sanitizer.IsTraceLabel`;
  - the title match of utils.py:219 is `Extractor.TitleSplit`;
  - the question-number removal of utils.py:255 is `Extractor.DropNumber`;
  - the safe-title substitution of utils.py:401 is `PdfExport.Squash`.
- `sanitizer.dfy` (`Sanitizer`): `sanitize_learning_path_text`. It removes code
  fences, tool errors, tool JSON and trace lines, then cuts the text at the first
  day header, keeping at most two title lines. The line filter is a loop proved
  against its specification function.
- `urlencoding.dfy` (`UrlEncoding`): UTF-8 encoding and `urllib.parse.quote_plus`,
  with the round trip through unquoting.
- `extractor.dfy` (`Extractor`): `extract_days_and_questions`. The primary pass
  splits the canonical text at day headers. The fallback pass slices the original
  text at every loose header line. Both are loops proved equal to their
  specification functions.
- `messages.dfy` (`Messages`): `concatenate_messages`.
- `pdfexport.dfy` (`PdfExport`): the file-name rule of `export_to_pdf`.
- `stores.dfy` (`Stores`): `load_progress`/`save_progress`, one file per goal named
  by the goal's hash, and `load_history`/`save_history_record`. They are the
  classes `ProgressStore` and `HistoryLog` over in-memory file states. Each write
  outcome is an input.
- `app.dfy` (`App`): the flow of `app.py`. It covers the secondary-tool
  selection, the ordered form checks and the generate button. It also covers the
  two day lists whose checkboxes update the progress map in place, the history
  record, the newest-first history and the usage counts.

Widget values (the checkbox states) are inputs of the model. So are the agent's
answer, the session's `generated_at` stamp and the outcome of every file write.
No line of app.py ever sets `generated_at` (app.py:195 only reads it), so as the
program stands the stamp is always missing and every stored history record has
the timestamp `None`; the model keeps the stamp an input so that `App.Stamp`
states what the record would hold if it were set.

## Model

| member | source | states |
|---|---|---|
| `Text.StripBy` | utils.py:177 | `strip()`: the result is empty exactly when every character is stripped; otherwise it neither starts nor ends with a stripped character, and it is no longer than the input |
| `Text.SplitLines` | utils.py:176 | `splitlines()`: no line holds a line break; there are no lines exactly when the text is empty |
| `Text.SplitLinesJoin` | utils.py:187 | joining lines with "\n" and splitting again gives the lines back when none holds a break and the last is not empty |
| `Text.JoinLinesAmong` | utils.py:187 | every line of `"\n".join(lines)` is one of the joined lines, when none of them holds a break |
| `Text.LinesOkAll` | utils.py:176 | walking the text one line at a time, cut where `splitlines()` cuts, accepts it exactly when every line of `splitlines()` passes the test |
| `Text.StripDropFront` | utils.py:177 | whitespace cut from the front of a line does not change what `strip()` makes of it |
| `Text.StripDropBack` | utils.py:177 | whitespace cut from the back of a line does not change what `strip()` makes of it |
| `Text.StripLinesOk` | utils.py:187 | `.strip()` of a text keeps each of its lines passing a test that accepts the empty line and ignores whitespace at either end of a line |
| `Text.Find` | utils.py:236 | `str.find`: the position found holds the literal and no earlier position does; `None` only when no position holds it |
| `Text.Before` | utils.py:288 | `split(lit)[0]`: the prefix up to the first occurrence of `lit`, or the whole text when there is none |
| `Text.StripBeforeNoLit` | utils.py:288 | the stripped part before the first `lit` holds no `lit` anywhere |
| `Text.Take` | utils.py:268 | `questions[:10]`: the first `min(n, len)` elements, unchanged |
| `Text.StripIdempotent` | utils.py:216 | `strip()` of a stripped text changes nothing |
| `Text.Decimal` | app.py:166 | `str(idx)`: a non-empty string of decimal digits |
| `Text.DecimalRoundTrip` | app.py:166 | reading the digits of `str(n)` back gives `n` |
| `Patterns.FenceAt` | utils.py:170 | a match exactly when "```" opens at the position and another "```" follows; it runs to the nearest closing "```", with none in between |
| `Patterns.ToolErrorAt` | utils.py:172 | a match exactly when "error:" and, after whitespace, "toolexception(" open at the position in any case and a ")" follows somewhere later; it runs to the first such ")" and the whitespace after it, stopping before non-whitespace |
| `Patterns.DoubleCloseFrom` | utils.py:173 | the lazy body of the data-JSON pattern ends at the first `}` `\s*` `}` |
| `Patterns.DataJsonAt` | utils.py:173 | a match exactly when the opening `{"data": {` is followed somewhere by `}` `\s*` `}`; it starts at "{" and swallows the whitespace after the first such close |
| `Patterns.AnchoredDayAt` | utils.py:190 | a match exactly at the text's start or at a newline when whitespace and a day header follow; it ends after the header |
| `Patterns.InlineDayAt` | utils.py:211 | a match exactly at a whitespace character when the run it starts is followed by a day header; the group is that header |
| `Patterns.DayBreakAt` | utils.py:213 | a match exactly at a newline that whitespace and a day header follow; it spans the newline only |
| `Patterns.DayHeaderAt` | utils.py:217 | `Day\s+\d+\s*[:\-]` matches exactly when a day number is followed by optional whitespace and ":" or "-"; it ends after the separator |
| `Patterns.DayNumberAt` | utils.py:277 | `Day\s+\d+` matches exactly on "day" in any case, whitespace and a digit; it ends after the whole run of digits |
| `Patterns.TopicLabelAt` | utils.py:224 | a match exactly when "topic", whitespace and ":" are followed by a character that is not a newline; the group is a non-empty piece of one line that runs to the end of that line |
| `Patterns.LabelledLinkAt` | utils.py:228 | a match exactly when a "YouTube Link" label is followed, past the optional number and colon, by a URL; the group is that URL |
| `Patterns.LinkLabelAt` | utils.py:228 | `YouTube\s*Link` matches exactly on "youtube", whitespace and "link" in any case, and ends after "link" |
| `Patterns.LinkUrlStart` | utils.py:228 | `(?:\s*\d+)?\s*:?\s*` skips only whitespace, digits and colons and stops at non-whitespace |
| `Patterns.UrlAt` | utils.py:232 | `https?://\S+` matches exactly on "http", an optional "s" and "://" followed by a non-whitespace character (letters in any case when asked); it runs to the first whitespace or the end |
| `Patterns.UrlSpan` | utils.py:232-233 | what a URL match spans is a URL: "http" in any case, at least eight characters, no whitespace |
| `Patterns.BareUrlAt` | utils.py:232 | a match exactly where a case-sensitive URL starts, spanning that URL |
| `Patterns.QuestionsLabelAt` | utils.py:244-248 | a match exactly when "practice", "questions" and "(10)" open at the position, in any case; the group runs from the first non-whitespace after the label to the end of the text |
| `Patterns.QuestionsWordsAt` | utils.py:245 | `Practice\s*Questions\s*` matches exactly on the two words in any case and ends after the whitespace that follows them |
| `Patterns.CountAt` | utils.py:245 | `\(\s*10\s*\)` matches exactly on "(", "10" and ")" with optional whitespace between them |
| `Patterns.LooseDayAt` | utils.py:277 | a match exactly at a line start whose whitespace is followed by a day number; it runs to the end of the line after the number and the optional separator |
| `Patterns.MatchAt` | utils.py:211 | every match is non-empty and its group lies inside it |
| `Patterns.TableOf` | utils.py:211 | the table holds the match at every position of the text |
| `Patterns.Search` | utils.py:224 | `re.search`: the leftmost matching position, and no match anywhere when `None` |
| `Patterns.FirstGroup` | utils.py:224-225 | a group exists exactly when the pattern matches somewhere, and it is the group of the leftmost match |
| `Patterns.FirstGroupAt` | utils.py:224-225 | a match with no match before it gives the first group |
| `Patterns.ReplaceNoMatch` | utils.py:170 | `re.sub` with no match left copies the rest of the text |
| `Patterns.ReplaceLeftmost` | utils.py:211 | `re.sub` copies up to the leftmost match, writes the replacement and resumes after the match |
| `Patterns.Replace` | utils.py:170-173 | `re.sub` with an empty replacement never makes the text longer |
| `Patterns.Replacements` | utils.py:211 | one replacement per match: "" for the deleted spans, "\n" and the header for `InlineDay` |
| `Patterns.ReplaceWeave` | utils.py:170-173 | `re.sub` from any scan position writes the pieces `re.split` cuts, with the replacement of each match between them |
| `Patterns.SubWeave` | utils.py:211 | `re.sub(pat, repl, s)` is the pieces of `re.split(pat, s)` with the replacement of each match `re.finditer` finds between them |
| `Patterns.SplitFrom` | utils.py:213 | `re.split` always yields at least one piece |
| `Patterns.SplitAll` | utils.py:213 | `re.split` of a whole text yields one piece more than there are matches: the text before the first match, then the text between each match and the next, then the text after the last |
| `Patterns.SplitFromPieces` | utils.py:213 | the pieces of `re.split` are the texts between the matches `re.finditer` finds, from any scan position |
| `Patterns.SplitFromJoin` | utils.py:213 | when every match is a single "\n", joining the pieces with "\n" gives the text back |
| `Patterns.SplitAllDayBreak` | utils.py:213 | joining the day blocks with "\n" gives the text back, and every split point is a newline that a day header follows |
| `Patterns.FindAll` | utils.py:278 | `finditer`: the starts are strictly increasing matches; the first is the leftmost match, and each next one is the leftmost match from the end of the previous one; the search after the last one fails |
| `Patterns.FindAllComplete` | utils.py:278 | no match is skipped: no position before the first start, between one match's end and the next start, or after the last match holds a match |
| `Sanitizer.TraceLabelPrefix` | utils.py:181 | only the label at the front counts: a line that opens with Thought, Action or Observation is a trace line whatever follows, and a line of eleven or more characters without one never gains one from what follows |
| `Sanitizer.BracedIsTrace` | utils.py:183-185 | a line wrapped in braces is a trace line, whatever it holds |
| `Sanitizer.HeaderLineKept` | utils.py:181-186 | a line that opens with a day header is never a trace line, so the filter keeps it |
| `Sanitizer.Kept` | utils.py:176-186 | a line is dropped exactly when its stripped text is a trace line; a kept line is unchanged or "" (blank) |
| `Sanitizer.FilterLines` | utils.py:175-186 | no kept line is a trace line, each is blank or one of the input lines, each is settled (the filter would keep it as it is), and there are no more of them than input lines |
| `Sanitizer.FilterLinesAppend` | utils.py:176-186 | the filter judges every line on its own: it distributes over concatenation |
| `Sanitizer.FilterOne` | utils.py:177-186 | blank lines become "", trace lines vanish, other lines stay as they are |
| `Sanitizer.FilterStep` | utils.py:176-186 | what one more line adds to the filtered lines |
| `Sanitizer.StripSpans` | utils.py:170-173 | the three removals never make the text longer |
| `Sanitizer.StripSpansClean` | utils.py:170-173 | a text with no fence, no tool error and no data JSON passes the removals unchanged |
| `Sanitizer.Cleaned` | utils.py:187 | the cleaned text has no whitespace at either end |
| `Sanitizer.CleanedSettled` | utils.py:175-187 | every line of the cleaned text is settled: the line filter would keep it as it is |
| `Sanitizer.SettledBlind` | utils.py:177-186 | the empty line is settled, and whitespace cut from either end of a line keeps a settled line settled |
| `Sanitizer.FirstDay` | utils.py:190 | `re.search`: the leftmost position where an anchored day header matches, and `None` only when none matches anywhere |
| `Sanitizer.TitleLines` | utils.py:194-195 | at most two lines, the last ones of the stripped text before the header, the last not ending in whitespace; none exactly when that text is blank |
| `Sanitizer.Sanitize` | utils.py:167-198 | the empty text sanitizes to ""; no line of the result is a trace line once stripped, and every line is settled |
| `Sanitizer.SanitizeLearningPathText` | utils.py:161-198 | the loop over the lines computes exactly `Sanitize` |
| `Sanitizer.CutAtFirstDayShape` | utils.py:189-198 | with a header at the start or after a newline, the result is the title lines, a blank line and the stripped text from the first such header, which begins with a header; without one, the cleaned text |
| `Sanitizer.BodyStartsWithHeader` | utils.py:196 | the stripped body from the header's match on begins with a day header |
| `Sanitizer.TitleEndsInWord` | utils.py:195-197 | a title, when present, ends in non-whitespace, so the final strip keeps the blank line before the body |
| `Sanitizer.CutValue` | utils.py:192-197 | the value of the cut once the header position is known |
| `Sanitizer.CutSettled` | utils.py:189-198 | cutting at the first day header keeps every line settled |
| `Sanitizer.RejoinSettled` | utils.py:192-197 | the title lines, a blank line and the stripped body have only settled lines when the cleaned text has |
| `Sanitizer.FilterSettled` | utils.py:176-186 | the line filter keeps lines that are all settled exactly as they are |
| `Sanitizer.CleanedNewlines` | utils.py:187 | every line break of the cleaned text is a lone "\n", since the lines are joined with "\n" |
| `Sanitizer.CleanedFixed` | utils.py:167-187 | cleaning a text that has no span to remove, only settled lines, lone "\n" breaks and no whitespace at either end gives it back |
| `Sanitizer.TitleAgain` | utils.py:192-195 | the title the cut keeps is not blank, has no whitespace at either end, and its own title lines rebuild it |
| `Sanitizer.FirstDayAfterTitle` | utils.py:190 | in the cut text the first day header anchored at a line start is the one right after the title: no header can start inside the title |
| `Sanitizer.TitledFirstDay` | utils.py:190-197 | the title the cut keeps rebuilds itself, and in the cut text the first anchored header follows it |
| `Sanitizer.BodyCutAgain` | utils.py:189-198 | a text that opens with a day header and ends in non-whitespace is cut to itself |
| `Sanitizer.ShapedCutAgain` | utils.py:189-198 | a title that rebuilds itself, a blank line and a body opening with the first header are cut to themselves |
| `Sanitizer.CutAgain` | utils.py:189-198 | cutting a cut text again changes nothing, for a text that starts with non-whitespace and breaks its lines with lone "\n"s |
| `Sanitizer.CutTidy` | utils.py:189-198 | the cut text breaks its lines with lone "\n"s and has no whitespace at either end |
| `Sanitizer.SanitizeIdempotent` | utils.py:167-198 | sanitizing a sanitized text changes nothing, when the removals find no code fence, tool error or data JSON in it |
| `UrlEncoding.Utf8` | utils.py:239 | one to four bytes; one byte exactly for ASCII, otherwise a lead byte and continuation bytes |
| `UrlEncoding.Utf8RoundTrip` | utils.py:239 | decoding the UTF-8 form of a character gives the character back |
| `UrlEncoding.Encode` | utils.py:239 | the encoding is at least as long as the text |
| `UrlEncoding.EncodeAppend` | utils.py:239 | encoding distributes over concatenation |
| `UrlEncoding.QuoteByte` | utils.py:239 | a quoted byte is one to three URL-safe characters |
| `UrlEncoding.QuoteBytes` | utils.py:239 | quoted bytes are URL-safe and at least as many as the bytes |
| `UrlEncoding.QuotePlus` | utils.py:239 | `quote_plus` produces only URL-safe characters, at least one per input character |
| `UrlEncoding.QuoteRoundTrip` | utils.py:239 | unquoting gives back exactly the bytes that were quoted |
| `UrlEncoding.QuotePlusAppend` | utils.py:239 | `quote_plus` distributes over concatenation |
| `UrlEncoding.QuotePlusSafeText` | utils.py:239 | text of always-safe ASCII characters is left unchanged |
| `Extractor.QuotedSpaceWord` | utils.py:239 | a space and a lower-case word quote to "+" and the word |
| `Extractor.SearchLinkShape` | utils.py:239 | the search link is the prefix, the quoted topic and "+tutorial" |
| `Extractor.SearchLink` | utils.py:239 | the link is the search prefix followed by URL-safe characters only |
| `Extractor.SearchQueryRoundTrip` | utils.py:239 | the query of the search link unquotes to the UTF-8 bytes of the topic and " tutorial" |
| `Extractor.BareLink` | utils.py:232-233 | the link is empty exactly when the block holds no bare URL; otherwise it is the URL at the leftmost match, and it is a URL |
| `Extractor.LinkIn` | utils.py:228-233 | the link is empty exactly when there is neither a labelled nor a bare URL; the leftmost labelled URL wins and is taken whole, stripping changing nothing; without a label the bare link is taken; a link is always a URL |
| `Extractor.LabelledUrl` | utils.py:228-230 | the group of the first labelled match is a URL, which `.strip()` leaves whole |
| `Extractor.ResolveLink` | utils.py:235-262 | the link is never empty; a found link without the placeholder is kept; otherwise the topic's search link, or the generic YouTube link when there is no topic |
| `Extractor.TopicOf` | utils.py:224-225 | the topic is the stripped group of the leftmost "Topic:" match, and "" when no position matches; a non-empty topic has no whitespace at either end |
| `Extractor.TopicOneLine` | utils.py:224-225 | a topic holds no newline |
| `Extractor.TopicGroupOneLine` | utils.py:224 | the matched topic group holds no newline |
| `Extractor.DropNumber` | utils.py:255 | removes a prefix only: lines that do not start with a digit are unchanged, others get strictly shorter |
| `Extractor.CleanQuestion` | utils.py:254-255 | the cleaned line is no longer than the line and does not end in list padding; a line with no padding at either end that does not start with a digit stays whole |
| `Extractor.QuestionOf` | utils.py:254-257 | a line adds at most one question, and never an empty one |
| `Extractor.QuestionsOf` | utils.py:253-257 | no more questions than lines |
| `Extractor.QuestionsNonEmpty` | utils.py:256-257 | no question is empty |
| `Extractor.QuestionsFromLines` | utils.py:253-257 | every question is the cleaned text of one of the lines |
| `Extractor.QuestionsIn` | utils.py:251-257 | at most one question per line, none empty, each the cleaned text of one of the lines |
| `Extractor.QuestionsOfAppend` | utils.py:253-257 | every line is judged on its own, so order is kept |
| `Extractor.DropNumberRoundTrip` | utils.py:255 | "n. q" loses exactly its numbering |
| `Extractor.CleanNumbered` | utils.py:254-255 | a numbered question cleans back to the question |
| `Extractor.NumberedLinesRoundTrip` | utils.py:253-257 | numbered lines clean back to their questions, whatever the numbers |
| `Extractor.QuestionsRoundTrip` | utils.py:251-257 | a list of one-line questions numbered "1. ", "2. ", ... parses back to the list |
| `Extractor.CollectQuestions` | utils.py:253-257 | the question loop computes exactly `QuestionsIn` |
| `Extractor.Canonical` | utils.py:211 | a text with no whitespace-and-header match is left as it is |
| `Extractor.CanonicalWeave` | utils.py:211 | the canonical text is the pieces between the matches, and the whitespace in front of each header is written back as one "\n" and the header |
| `Extractor.InlineReplacements` | utils.py:211 | every match is whitespace followed by a day header, and its replacement is "\n" and that header |
| `Extractor.DayBlocks` | utils.py:213 | joining the blocks with "\n" gives the canonical text back, and there is one more block than split points |
| `Extractor.HeaderTitle` | utils.py:219-220 | the stripped header group is the header through its separator |
| `Extractor.BlockItem` | utils.py:216-218 | a block from `re.split` gives one record exactly when, stripped, it opens with a day header, and none otherwise |
| `Extractor.TitleSplit` | utils.py:219-221 | for a stripped block that opens with a day header: when no newline is left after the whitespace that follows the header, the title is the header through its separator and the rest is the stripped remainder; otherwise the title is "Day" and the rest is the whole block |
| `Extractor.DayFromBlock` | utils.py:216-269 | every primary record of a stripped block that opens with a day header is sound: title and link non-empty, at most ten questions, none empty |
| `Extractor.PrimaryItems` | utils.py:214-269 | at most one record per block |
| `Extractor.PrimaryAppend` | utils.py:215-269 | blocks are judged on their own, so records come in block order |
| `Extractor.PrimarySound` | utils.py:264-269 | every primary record is sound |
| `Extractor.FallbackTitle` | utils.py:286-288 | the fallback title is the first line of the block up to any "Topic:", stripped, or "Day" when that leaves nothing (as `day_title or "Day"` gives it); it is never empty and has no whitespace at either end |
| `Extractor.FallbackTitleOneLine` | utils.py:286-288 | the fallback title holds no line break |
| `Extractor.FallbackTitleNoTopic` | utils.py:288 | the fallback title holds no "Topic:" |
| `Extractor.DayFromLooseBlock` | utils.py:285-325 | every fallback record is sound |
| `Extractor.LooseStarts` | utils.py:277-278 | the loose header starts are strictly increasing positions inside the text |
| `Extractor.Spans` | utils.py:279-282 | one span per header, each starting at its header and ending where the next starts, the last at the end of the text |
| `Extractor.SpansCover` | utils.py:279-285 | the spans cover the text from the first header to the end, each character once |
| `Extractor.FallbackItems` | utils.py:283-326 | one fallback record per span |
| `Extractor.FallbackBySpan` | utils.py:279-285 | the fallback record of each header is made from the stripped text between that header and the next, or the end |
| `Extractor.Extract` | utils.py:207-208 | the empty text has no days |
| `Extractor.ExtractSound` | utils.py:201-326 | every extracted day is sound |
| `Extractor.ExtractFallback` | utils.py:270-326 | with no primary record, there is one record per loose header line, in order |
| `Extractor.ExtractFindsDay` | utils.py:270-326 | a text with a line that looks like a day header yields at least one day |
| `Extractor.ParseDayBlock` | utils.py:216-269 | the per-block steps compute exactly `DayFromBlock` |
| `Extractor.ParseLooseBlock` | utils.py:285-325 | the fallback's per-block steps compute exactly `DayFromLooseBlock` |
| `Extractor.PrimaryPass` | utils.py:214-269 | the primary loop computes exactly `PrimaryItems` |
| `Extractor.HeaderSpans` | utils.py:276-282 | the span loop computes exactly `Spans` |
| `Extractor.FallbackPass` | utils.py:283-326 | the fallback loop computes exactly `FallbackItems` |
| `Extractor.ExtractDaysAndQuestions` | utils.py:201-326 | the whole extractor computes exactly `Extract` |
| `Messages.TextParts` | utils.py:154-157 | no more parts than messages |
| `Messages.Concatenated` | utils.py:146-158 | a falsy result gives ""; the text never begins or ends with whitespace |
| `Messages.TextPartsAppend` | utils.py:154-157 | every message is judged on its own |
| `Messages.NonTextIgnored` | utils.py:155-157 | a message without string content leaves the answer unchanged |
| `Messages.TrimmedPartsJoined` | utils.py:158 | with no whitespace at the outer ends, the answer is exactly the parts joined by blank lines |
| `Messages.ConcatenateMessages` | utils.py:146-158 | the loop computes exactly `Concatenated` |
| `PdfExport.Squash` | utils.py:401 | the result only holds `[a-zA-Z0-9_-]` and is no longer than the input |
| `PdfExport.SafeTitle` | utils.py:401 | the safe title is never empty |
| `PdfExport.SquashKeepsSafe` | utils.py:401 | a title of file-name characters is left as it is |
| `PdfExport.SquashNonEmpty` | utils.py:401 | a non-empty title stays non-empty |
| `PdfExport.SafeTitleIdempotent` | utils.py:401 | making a safe title safe again changes nothing |
| `PdfExport.SquashRun` | utils.py:401 | every maximal run of other characters becomes one "_" |
| `Stores.LoadOr` | utils.py:337-343 | a missing or unreadable file loads as the empty value |
| `Stores.AfterWrite` | utils.py:349-354 | a successful write is read back; a file that cannot be opened is unchanged |
| `Stores.Saved` | utils.py:346-354 | only the file of the goal's hash changes, as the write outcome says |
| `Stores.SaveThenLoad` | utils.py:333-354 | loading after a successful save gives the saved map; after a failed dump the goal reads as empty |
| `Stores.ProgressStore.Load` | utils.py:333-343 | `load_progress`: the stored map, or an empty one |
| `Stores.ProgressStore.Save` | utils.py:346-354 | `save_progress` swallows errors; every goal with the same hash reads the saved map; no other goal's progress changes |
| `Stores.SavedRecordsAppend` | utils.py:381-386 | successful saves keep all stored records in order and append the new ones in save order |
| `Stores.HistoryLog.Load` | utils.py:370-378 | `load_history`: the stored list, or an empty one |
| `Stores.HistoryLog.SaveRecord` | utils.py:381-386 | a failed write is raised; a successful one keeps every earlier record and appends the new one last |
| `App.SecondaryUrls` | app.py:40-49 | exactly one URL is set, the selected tool's, stripped |
| `App.Validate` | app.py:116-130 | one verdict: the first check that objects, all earlier checks passing; `Proceed` only when none objects |
| `App.ValidateAccepts` | app.py:116-130 | generation runs exactly when the stripped key has at least 20 characters, the YouTube URL starts with "http" in any case, the goal is present, and the Drive URL starts with "http" or the Notion URL is present |
| `App.NotionUrlUnchecked` | app.py:118-128 | any present Notion URL gives the same verdict: it is never prefix-checked |
| `App.DayKey` | app.py:166 | the key is "day_" followed by the decimal digits of the day's position |
| `App.DayKeyNumber` | app.py:166 | the digits after "day_" read back as the day's position |
| `App.DayKeyInjective` | app.py:165-166 | distinct days have distinct keys |
| `App.IsCompleted` | app.py:167 | a day with no entry reads as not completed |
| `App.TrackedKeepsOthers` | app.py:177-183 | a key naming none of the listed days keeps its entry |
| `App.TrackedDay` | app.py:165-183 | after the list every day reads as its checkbox says; a changed day gets {completed, title, topic}; an unchanged day keeps its entry |
| `App.TrackedOtherFiles` | app.py:183 | only the goal's file is written |
| `App.TrackedGoalFile` | app.py:177-183 | no change writes no file; a change with successful saves leaves the final map in the goal's file |
| `App.TrackDays` | app.py:163-183 | the loop over the day list computes exactly `Tracked` from the loaded progress |
| `App.Stamp` | app.py:195 | a present, non-empty stamp is kept as it is; an empty or missing stamp is stored as `None` (and app.py never sets the stamp, so every record gets `None`) |
| `App.NewRecord` | app.py:194-201 | the record names the selected tool, the goal and the clean text; it flags only the selected tool |
| `App.RecordNamesOneTool` | app.py:194-201 | a record made after the checks pass flags exactly one tool, the selected one |
| `App.GenerateClicked` | app.py:115-201 | nothing happens when a check objects; otherwise an empty clean text saves nothing, and a non-empty one tracks its days and appends its record, raising a failed history write |
| `App.SaveGeneration` | app.py:159-201 | the days of the clean text are tracked and its record appended |
| `App.NewestFirst` | app.py:278 | the listing has one entry per record |
| `App.NewestFirstAfterSave` | app.py:278 | the record saved last is listed first, ahead of the earlier ones |
| `App.NewestFirstTwice` | app.py:278 | listing newest first twice gives back the saved order |
| `App.ReviewedOtherFiles` | app.py:284-310 | the history section writes only the files of the reviewed goals' hashes |
| `App.ReviewHistory` | app.py:278-310 | the history loop computes exactly `Reviewed` |
| `App.UsageCount` | app.py:273-274 | a usage count never exceeds the number of records |
| `App.Analyze` | app.py:269-275 | the Drive and Notion counts never exceed the total |
| `App.UsageCountAppend` | app.py:273-274 | counts add up over concatenated histories |
| `App.UsageAfterSave` | app.py:273-274 | a save raises a count by one exactly when the record used that tool |
| `App.UsagePartition` | app.py:271-275 | when every record flags exactly one tool, the two counts add up to the total |

## Left out

- Agent and LLM orchestration (`initialize_model`, `setup_agent_with_tools`, `run_agent_sync`, the Drive agent and PDF upload) is left out. It is network and MCP clients, an asyncio loop and foreign libraries. The agent's answer is an input of `App.GenerateClicked`, and the exceptions it may raise are not modelled.
- PDF rendering in `export_to_pdf` (FPDF, the output directory, the `datetime.now()` stamp in the file name) is left out. Only the safe-title rule is modelled.
- File and JSON plumbing (`os.makedirs`, `os.path.isfile`, `json.load`/`json.dump`) is left out. Files are in-memory states (missing, readable, unreadable), and each write outcome is an input.
- The value of Python's randomized `hash()` is not modelled. It is the opaque function `keyOf` of `Stores.ProgressStore`, so goals whose hashes collide share a file, as in the program.
- Only the shapes the program writes are modelled in files: a progress map of entries with an optional "completed" flag, and a list of history records. A JSON file of any other shape, such as a list where a map is expected, is not modelled.
- Streamlit rendering, session state, reruns and `update_progress` (whose fractions are floats) are left out. Checkbox values are the `checked` inputs, indexed by day (and by history position).
- The PDF listing and upload buttons are left out, because they are file system and network work.
- Unicode is not modelled: whitespace, line breaks, digits and case folding are ASCII-only in `Text`. `str.lower()` in `App.StartsWithHttp` is ASCII-only too.
- Only the specific patterns are modelled, not a general regular expression engine.
- Sanitizer.StripSpans: states the length bound and that a text without any of the three spans is unchanged. It does not state that no span is left afterwards, because a removal can join two pieces into a new match, as it does in Python; `Patterns.SubWeave` states what each removal writes instead.
- Sanitizer.SanitizeIdempotent: holds only when the sanitized text has no code fence, tool error or data JSON span left, which the removals in Python do not promise (see `Sanitizer.StripSpans`): a removal can join two pieces into a new span, and a second pass would then remove it.
- `App.Analyze` counts an empty history too; the program does not show the analytics line then.
- `App.TrackedGoalFile` states the goal file's final content only when every save of the list succeeded. With failures, the file is what `Stores.AfterWrite` makes of the last save that changed it, which the function `App.Tracked` defines but no lemma restates.

## Behaviour of the code worth knowing


- The fallback pass rescans the same (sanitized) text that the primary pass read, not the raw agent output.
- The title match `^(Day\s+\d+\s*[:\-]\s*)(.*)$` runs without DOTALL. Its `\s*` after the separator takes every whitespace character, newlines included, and `.*$` must then reach the end of the block without crossing a newline. So "Day 1:\nTopic: X" keeps the title "Day 1:" and the rest "Topic: X". Only a block where a newline remains after that whitespace, such as "Day 1: Intro\nTopic: X", gets the title "Day". In that case the whole block, header included, is searched for the topic, link and questions.
- Question lines are stripped of spaces, `-` and tabs, then of one leading number with an optional dot. Other bullet characters stay.
- Only the Drive URL is checked for an "http" prefix.
