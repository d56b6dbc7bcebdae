/** The flow of `app.py` around the pipeline: the sidebar form and its checks, the
    day list whose checkboxes update the goal's progress, the history record saved
    after a generation, and the analytics over the history. Widget values and the
    agent's answer are inputs of the model. */
module App {
  import opened Text
  import opened Stores
  import opened Extractor
  import Messages
  import Sanitizer

  /** The secondary tool chosen with the sidebar's radio button. */
  datatype Tool = Drive | Notion

  /** The radio button's label, which is also what a history record stores. */
  function ToolName(tool: Tool): string {
    match tool
    case Drive => "Drive"
    case Notion => "Notion"
  }

  /** The Drive and Notion URLs: the selected tool's input, stripped, and `None`
      for the other tool. */
  function SecondaryUrls(tool: Tool, input: string): (urls: (Option<string>, Option<string>))
    ensures urls.0.Some? <==> tool.Drive?
    ensures urls.1.Some? <==> tool.Notion?
    ensures var u := if tool == Drive then urls.0 else urls.1;
      u.Some? && |u.value| <= |input| && (u.value != "" ==> !IsSpace(u.value[0]) && !IsSpace(Last(u.value)))
  {
    var url := Strip(input);
    if tool == Drive then (Some(url), None) else (None, Some(url))
  }

  /** The form as it stands when "Generate Learning Path" is pressed. */
  datatype Form = Form(apiKey: string, youtubeInput: string, tool: Tool, secondaryInput: string, goal: string)

  function YoutubeUrl(f: Form): string { Strip(f.youtubeInput) }
  function DriveUrl(f: Form): Option<string> { SecondaryUrls(f.tool, f.secondaryInput).0 }
  function NotionUrl(f: Form): Option<string> { SecondaryUrls(f.tool, f.secondaryInput).1 }

  /** Python's truth value of `None` or a string. */
  predicate Truthy(u: Option<string>) { u.Some? && u.value != "" }

  /** `s.lower().startswith("http")`. */
  predicate StartsWithHttp(s: string) { CiLitAt(s, 0, "http") }

  /** The shortest stripped API key accepted. */
  const MinKeyLength := 20

  /** The message the checks produce, or `Proceed` when none objects. */
  datatype Verdict =
    | NoApiKey | NoYoutubeUrl | NoSecondaryUrl(tool: Tool) | NoGoal
    | ShortApiKey | YoutubeNotHttp | DriveNotHttp | Proceed

  /** The position of a verdict's check in the chain, from 1. */
  function Rank(v: Verdict): nat {
    match v
    case NoApiKey => 1
    case NoYoutubeUrl => 2
    case NoSecondaryUrl(_) => 3
    case NoGoal => 4
    case ShortApiKey => 5
    case YoutubeNotHttp => 6
    case DriveNotHttp => 7
    case Proceed => 8
  }

  /** Whether check `n` objects to the form. */
  predicate Fires(f: Form, n: nat) {
    if n == 1 then f.apiKey == ""
    else if n == 2 then YoutubeUrl(f) == ""
    else if n == 3 then !Truthy(if f.tool == Drive then DriveUrl(f) else NotionUrl(f))
    else if n == 4 then f.goal == ""
    else if n == 5 then |Strip(f.apiKey)| < MinKeyLength
    else if n == 6 then !StartsWithHttp(YoutubeUrl(f))
    else if n == 7 then f.tool == Drive && Truthy(DriveUrl(f)) && !StartsWithHttp(DriveUrl(f).value)
    else false
  }

  /** The `if`/`elif` chain of the generate button: exactly one message, the
      one of the first check that objects, and generation only when none does. */
  function Validate(f: Form): (v: Verdict)
    ensures v.NoSecondaryUrl? ==> v.tool == f.tool
    ensures v != Proceed ==> Fires(f, Rank(v))
    ensures forall n | 1 <= n < Rank(v) :: !Fires(f, n)
  {
    if f.apiKey == "" then NoApiKey
    else if YoutubeUrl(f) == "" then NoYoutubeUrl
    else if (f.tool == Drive && !Truthy(DriveUrl(f))) || (f.tool == Notion && !Truthy(NotionUrl(f))) then
      NoSecondaryUrl(f.tool)
    else if f.goal == "" then NoGoal
    else if |Strip(f.apiKey)| < MinKeyLength then ShortApiKey
    else if !StartsWithHttp(YoutubeUrl(f)) then YoutubeNotHttp
    else if f.tool == Drive && Truthy(DriveUrl(f)) && !StartsWithHttp(DriveUrl(f).value) then DriveNotHttp
    else Proceed
  }

  /** What a form needs for generation to run, without the order of the checks:
      the first two checks only choose the message, since a long enough key is
      present and a URL starting with "http" is not empty; the Notion URL only has
      to be present, while the Drive URL has to start with "http". */
  predicate Acceptable(f: Form) {
    && |Strip(f.apiKey)| >= MinKeyLength
    && StartsWithHttp(Strip(f.youtubeInput))
    && f.goal != ""
    && match f.tool
       case Drive => StartsWithHttp(Strip(f.secondaryInput))
       case Notion => Strip(f.secondaryInput) != ""
  }

  lemma ValidateAccepts(f: Form)
    ensures Validate(f) == Proceed <==> Acceptable(f)
  {
    if |Strip(f.apiKey)| >= MinKeyLength {
      assert f.apiKey != "";
    }
    if StartsWithHttp(YoutubeUrl(f)) {
      assert YoutubeUrl(f) != "";
    }
    if f.tool == Drive && StartsWithHttp(Strip(f.secondaryInput)) {
      assert Strip(f.secondaryInput) != "";
    }
  }

  /** A present Notion URL is never checked further: any other present Notion
      URL gives the same verdict. */
  lemma NotionUrlUnchecked(f: Form, other: string)
    requires f.tool == Notion && Strip(f.secondaryInput) != "" && Strip(other) != ""
    ensures Validate(f.(secondaryInput := other)) == Validate(f)
  {
  }

  /** The key of the day at 1-based position `idx` in the progress map. */
  function DayKey(idx: nat): (key: string)
    ensures |key| > 4 && key[..4] == "day_"
    ensures key[4..] == Decimal(idx)
  {
    "day_" + Decimal(idx)
  }

  /** The digits after "day_" read back as the day's position. */
  lemma DayKeyNumber(idx: nat)
    ensures DigitsValue(DayKey(idx)[4..]) == idx
  {
    DecimalRoundTrip(idx);
  }

  /** Distinct days have distinct keys. */
  lemma DayKeyInjective(i: nat, j: nat)
    requires DayKey(i) == DayKey(j)
    ensures i == j
  {
    assert DayKey(i)[4..] == Decimal(i);
    assert DayKey(j)[4..] == Decimal(j);
    DecimalInjective(i, j);
  }

  /** `progress.get(key, {}).get("completed", False)`: a day with no entry, or
      whose entry has no "completed" key, reads as not completed. */
  function IsCompleted(p: Progress, key: string): (done: bool)
    ensures done ==> key in p
  {
    key in p && p[key].completed == Some(true)
  }

  /** The entry written for a day when its checkbox changes. */
  function EntryFor(item: DayItem, done: bool): ProgressEntry {
    ProgressEntry(Some(done), item.dayTitle, item.topic)
  }

  /** `p` and `q` agree on `key`. */
  predicate SameEntry(p: Progress, q: Progress, key: string) {
    (key in p <==> key in q) && (key in p ==> p[key] == q[key])
  }

  /** The goal's progress map in memory and the progress files on disk. */
  datatype Tracking = Tracking(progress: Progress, files: ProgressFiles)

  /** One checkbox: when its value differs from the stored one, the day's entry is
      replaced in the map and the whole map is saved to the file of `key`. */
  function Toggle(t: Tracking, key: int, idx: nat, item: DayItem, done: bool, outcome: WriteOutcome): Tracking {
    var day := DayKey(idx);
    if done == IsCompleted(t.progress, day) then t
    else
      var p := t.progress[day := EntryFor(item, done)];
      Tracking(p, Saved(t.files, key, p, outcome))
  }

  /** The checkboxes of a day list, taken in order; `checked(idx)` is the value of
      the box of day `idx` and `outcomes(idx)` how its save ends. */
  function Tracked(t: Tracking, key: int, items: seq<DayItem>, checked: nat -> bool,
                   outcomes: nat -> WriteOutcome): Tracking
    decreases |items|
  {
    if items == [] then t
    else
      var n := |items| - 1;
      Toggle(Tracked(t, key, items[..n], checked, outcomes), key, n + 1, items[n], checked(n + 1), outcomes(n + 1))
  }

  /** A key that names none of the listed days keeps its entry. */
  lemma {:induction false} TrackedKeepsOthers(t: Tracking, key: int, items: seq<DayItem>, checked: nat -> bool,
                                              outcomes: nat -> WriteOutcome, k: string)
    requires forall i | 1 <= i <= |items| :: DayKey(i) != k
    ensures SameEntry(Tracked(t, key, items, checked, outcomes).progress, t.progress, k)
    decreases |items|
  {
    if items != [] {
      var n := |items| - 1;
      TrackedKeepsOthers(t, key, items[..n], checked, outcomes, k);
      assert DayKey(n + 1) != k;
    }
  }

  /** After the list, every day reads as its checkbox says. A day whose box
      differs from what was stored gets the entry {completed, title, topic} of its
      item; any other day keeps its entry. */
  lemma {:induction false} TrackedDay(t: Tracking, key: int, items: seq<DayItem>, checked: nat -> bool,
                                      outcomes: nat -> WriteOutcome, i: nat)
    requires 1 <= i <= |items|
    ensures var p := Tracked(t, key, items, checked, outcomes).progress;
      && IsCompleted(p, DayKey(i)) == checked(i)
      && (checked(i) != IsCompleted(t.progress, DayKey(i)) ==> DayKey(i) in p && p[DayKey(i)] == EntryFor(items[i - 1], checked(i)))
      && (checked(i) == IsCompleted(t.progress, DayKey(i)) ==> SameEntry(p, t.progress, DayKey(i)))
    decreases |items|
  {
    var n := |items| - 1;
    var before := Tracked(t, key, items[..n], checked, outcomes);
    if i == n + 1 {
      forall j | 1 <= j <= n
        ensures DayKey(j) != DayKey(i)
      {
        if DayKey(j) == DayKey(i) {
          DayKeyInjective(j, i);
        }
      }
      TrackedKeepsOthers(t, key, items[..n], checked, outcomes, DayKey(i));
    } else {
      TrackedDay(t, key, items[..n], checked, outcomes, i);
      if DayKey(n + 1) == DayKey(i) {
        DayKeyInjective(n + 1, i);
      }
    }
  }

  /** Some day's checkbox differs from what was stored. */
  predicate AnyChange(p: Progress, n: nat, checked: nat -> bool) {
    exists i | 1 <= i <= n :: checked(i) != IsCompleted(p, DayKey(i))
  }

  /** Only the goal's file is ever written. */
  lemma {:induction false} TrackedOtherFiles(t: Tracking, key: int, items: seq<DayItem>, checked: nat -> bool,
                                             outcomes: nat -> WriteOutcome, j: int)
    requires j != key
    ensures FileAt(Tracked(t, key, items, checked, outcomes).files, j) == FileAt(t.files, j)
    decreases |items|
  {
    if items != [] {
      TrackedOtherFiles(t, key, items[..|items| - 1], checked, outcomes, j);
    }
  }

  /** The last day of a list reads, before its own checkbox, what was stored. */
  lemma LastDayUntouched(t: Tracking, key: int, items: seq<DayItem>, checked: nat -> bool,
                         outcomes: nat -> WriteOutcome)
    requires items != []
    ensures var n := |items| - 1;
      IsCompleted(Tracked(t, key, items[..n], checked, outcomes).progress, DayKey(n + 1))
        == IsCompleted(t.progress, DayKey(n + 1))
  {
    var n := |items| - 1;
    forall j | 1 <= j <= n
      ensures DayKey(j) != DayKey(n + 1)
    {
      if DayKey(j) == DayKey(n + 1) {
        DayKeyInjective(j, n + 1);
      }
    }
    TrackedKeepsOthers(t, key, items[..n], checked, outcomes, DayKey(n + 1));
  }

  /** When no checkbox changed, no file is written; when one did and every save
      succeeded, the goal's file holds the final map. */
  lemma {:induction false} TrackedGoalFile(t: Tracking, key: int, items: seq<DayItem>, checked: nat -> bool,
                                           outcomes: nat -> WriteOutcome)
    ensures var r := Tracked(t, key, items, checked, outcomes);
      && (!AnyChange(t.progress, |items|, checked) ==> r.files == t.files)
      && (AnyChange(t.progress, |items|, checked) && (forall i | 1 <= i <= |items| :: outcomes(i).Written?) ==>
            FileAt(r.files, key) == Readable(r.progress))
    decreases |items|
  {
    if items != [] {
      var n := |items| - 1;
      TrackedGoalFile(t, key, items[..n], checked, outcomes);
      LastDayUntouched(t, key, items, checked, outcomes);
      if !AnyChange(t.progress, n, checked) && checked(n + 1) != IsCompleted(t.progress, DayKey(n + 1)) {
        assert AnyChange(t.progress, |items|, checked);
      }
    }
  }

  /** A day list, of a generated path or of a history entry: the goal's progress is
      loaded once; each checkbox whose value differs from the stored one updates the
      map in place and saves it. Returns the map as the list leaves it. */
  method TrackDays(store: ProgressStore, goal: string, items: seq<DayItem>, checked: nat -> bool,
                   outcomes: nat -> WriteOutcome)
    returns (progress: Progress)
    modifies store
    ensures var t := Tracked(Tracking(old(store.Load(goal)), old(store.files)), store.keyOf(goal), items, checked, outcomes);
      progress == t.progress && store.files == t.files
  {
    progress := store.Load(goal);
    ghost var t0 := Tracking(progress, store.files);
    var idx := 1;
    while idx <= |items|
      invariant 1 <= idx <= |items| + 1
      invariant Tracking(progress, store.files) == Tracked(t0, store.keyOf(goal), items[..idx - 1], checked, outcomes)
    {
      var item := items[idx - 1];
      var dayKey := DayKey(idx);
      var isCompleted := dayKey in progress && progress[dayKey].completed == Some(true);
      var completed := checked(idx);
      if completed != isCompleted {
        progress := progress[dayKey := ProgressEntry(Some(completed), item.dayTitle, item.topic)];
        store.Save(goal, progress, outcomes(idx));
      }
      PrefixNext(items, idx - 1);
      idx := idx + 1;
    }
    assert items[..idx - 1] == items;
  }

  /** `st.session_state.get("generated_at") or None`: an empty stamp is no stamp.
      Nothing in the application ever sets `generated_at`, so as it stands every
      record gets `Stamp(None)`, that is `None`. */
  function Stamp(generatedAt: Option<string>): (s: Option<string>)
    ensures s.None? || (s == generatedAt && s.value != "")
    ensures generatedAt.Some? && generatedAt.value != "" ==> s == generatedAt
  {
    if generatedAt.Some? && generatedAt.value != "" then generatedAt else None
  }

  /** The record saved after a generation. It names the selected tool, and it says
      which secondary URL was filled in. */
  function NewRecord(f: Form, generatedAt: Option<string>, clean: string): (rec: HistoryRecord)
    ensures rec.tool == ToolName(f.tool) && rec.goal == f.goal && rec.content == clean
    ensures rec.hasDrive ==> f.tool == Drive
    ensures rec.hasNotion ==> f.tool == Notion
    ensures rec.timestamp != Some("")
  {
    HistoryRecord(Stamp(generatedAt), f.goal, ToolName(f.tool), Truthy(DriveUrl(f)), Truthy(NotionUrl(f)), clean)
  }

  /** A record made from a form that passed the checks names exactly one of the two
      tools, and it is the selected one. */
  lemma RecordNamesOneTool(f: Form, generatedAt: Option<string>, clean: string)
    requires Validate(f) == Proceed
    ensures var rec := NewRecord(f, generatedAt, clean);
      rec.hasDrive != rec.hasNotion && (rec.hasDrive <==> f.tool == Drive)
  {
    assert !Fires(f, 3);
  }

  /** The generate button. When a check objects nothing else happens. Otherwise the
      agent's answer (an input here) is concatenated and sanitized; an empty text
      saves nothing. A non-empty one has its day list tracked and is appended to
      the history, whose failed write is raised. */
  method GenerateClicked(store: ProgressStore, log: HistoryLog, f: Form, result: Messages.AgentResult,
                         generatedAt: Option<string>, checked: nat -> bool, outcomes: nat -> WriteOutcome,
                         historyOutcome: WriteOutcome)
    returns (v: Verdict, clean: string, items: seq<DayItem>, raised: bool)
    modifies store, log
    ensures v == Validate(f)
    ensures v != Proceed ==> clean == "" && items == [] && !raised && unchanged(store, log)
    ensures v == Proceed ==> clean == Sanitizer.Sanitize(Messages.Concatenated(result)) && items == Extract(clean)
    ensures v == Proceed && clean == "" ==> !raised && unchanged(store, log)
    ensures v == Proceed && clean != "" ==>
      && store.files == Tracked(Tracking(old(store.Load(f.goal)), old(store.files)), store.keyOf(f.goal),
                                items, checked, outcomes).files
      && log.file == AfterWrite(old(log.file), historyOutcome, old(log.Load()) + [NewRecord(f, generatedAt, clean)])
      && (raised <==> !historyOutcome.Written?)
  {
    v := Validate(f);
    clean, items, raised := "", [], false;
    if v != Proceed {
      return;
    }
    var fullText := Messages.ConcatenateMessages(result);
    clean := Sanitizer.SanitizeLearningPathText(fullText);
    if clean == "" {
      return;
    }
    items, raised := SaveGeneration(store, log, f, clean, generatedAt, checked, outcomes, historyOutcome);
  }

  /** What follows a non-empty sanitized text: its day list is tracked and a record
      of it is appended to the history. */
  method SaveGeneration(store: ProgressStore, log: HistoryLog, f: Form, clean: string,
                        generatedAt: Option<string>, checked: nat -> bool, outcomes: nat -> WriteOutcome,
                        historyOutcome: WriteOutcome)
    returns (items: seq<DayItem>, raised: bool)
    modifies store, log
    ensures items == Extract(clean)
    ensures store.files == Tracked(Tracking(old(store.Load(f.goal)), old(store.files)), store.keyOf(f.goal),
                                   items, checked, outcomes).files
    ensures log.file == AfterWrite(old(log.file), historyOutcome, old(log.Load()) + [NewRecord(f, generatedAt, clean)])
    ensures raised <==> !historyOutcome.Written?
  {
    items := ExtractDaysAndQuestions(clean);
    ghost var t0 := Tracking(store.Load(f.goal), store.files);
    if items != [] {
      var _ := TrackDays(store, f.goal, items, checked, outcomes);
    } else {
      assert Tracked(t0, store.keyOf(f.goal), items, checked, outcomes) == t0;
    }
    raised := log.SaveRecord(NewRecord(f, generatedAt, clean), historyOutcome);
  }

  /** History listed newest first. */
  function NewestFirst(h: seq<HistoryRecord>): (r: seq<HistoryRecord>)
    ensures |r| == |h|
  {
    seq(|h|, i requires 0 <= i < |h| => h[|h| - 1 - i])
  }

  /** The record saved last is listed first, ahead of the earlier ones in their
      newest-first order. */
  lemma NewestFirstAfterSave(h: seq<HistoryRecord>, rec: HistoryRecord)
    ensures NewestFirst(h + [rec]) == [rec] + NewestFirst(h)
  {
    var l := NewestFirst(h + [rec]);
    var r := [rec] + NewestFirst(h);
    assert forall i | 1 <= i < |l| :: l[i] == (h + [rec])[|h| - i] == h[|h| - i];
    assert l[0] == rec;
    assert forall i | 0 <= i < |l| :: l[i] == r[i];
  }

  /** Listing newest first twice gives back the saved order. */
  lemma NewestFirstTwice(h: seq<HistoryRecord>)
    ensures NewestFirst(NewestFirst(h)) == h
  {
    var r := NewestFirst(NewestFirst(h));
    assert forall i | 0 <= i < |h| :: r[i] == NewestFirst(h)[|h| - 1 - i] == h[i];
  }

  /** The box of day `idx` in the list of the history entry at position `i`. */
  function Row<T>(cells: (nat, nat) -> T, i: nat): nat -> T {
    (idx: nat) => cells(i, idx)
  }

  /** The progress files after the history section: for the entry at position `i`
      of the newest-first list, its goal's progress is loaded and its day list
      tracked, when its content holds any day. */
  function Reviewed(files: ProgressFiles, keyOf: string -> int, recs: seq<HistoryRecord>,
                    checked: (nat, nat) -> bool, outcomes: (nat, nat) -> WriteOutcome): ProgressFiles
    decreases |recs|
  {
    if recs == [] then files
    else
      var n := |recs| - 1;
      var before := Reviewed(files, keyOf, recs[..n], checked, outcomes);
      var key := keyOf(recs[n].goal);
      var items := Extract(recs[n].content);
      if items == [] then before
      else Tracked(Tracking(LoadOr(FileAt(before, key), map[]), before), key, items,
                   Row(checked, n + 1), Row(outcomes, n + 1)).files
  }

  /** A file whose hash belongs to none of the reviewed goals is left alone. */
  lemma {:induction false} ReviewedOtherFiles(files: ProgressFiles, keyOf: string -> int, recs: seq<HistoryRecord>,
                                              checked: (nat, nat) -> bool, outcomes: (nat, nat) -> WriteOutcome, j: int)
    requires forall i | 0 <= i < |recs| :: keyOf(recs[i].goal) != j
    ensures FileAt(Reviewed(files, keyOf, recs, checked, outcomes), j) == FileAt(files, j)
    decreases |recs|
  {
    if recs != [] {
      var n := |recs| - 1;
      var before := Reviewed(files, keyOf, recs[..n], checked, outcomes);
      var key := keyOf(recs[n].goal);
      ReviewedOtherFiles(files, keyOf, recs[..n], checked, outcomes, j);
      TrackedOtherFiles(Tracking(LoadOr(FileAt(before, key), map[]), before), key, Extract(recs[n].content),
                        Row(checked, n + 1), Row(outcomes, n + 1), j);
    }
  }

  /** The history section: every entry, newest first, has its content parsed and,
      when it holds days, its goal's progress loaded and its day list tracked. */
  method ReviewHistory(store: ProgressStore, history: seq<HistoryRecord>,
                       checked: (nat, nat) -> bool, outcomes: (nat, nat) -> WriteOutcome)
    modifies store
    ensures store.files == Reviewed(old(store.files), store.keyOf, NewestFirst(history), checked, outcomes)
  {
    var recs := NewestFirst(history);
    var i := 1;
    while i <= |recs|
      invariant 1 <= i <= |recs| + 1
      invariant store.files == Reviewed(old(store.files), store.keyOf, recs[..i - 1], checked, outcomes)
    {
      var rec := recs[i - 1];
      var items := ExtractDaysAndQuestions(rec.content);
      PrefixNext(recs, i - 1);
      if items != [] {
        var _ := TrackDays(store, rec.goal, items, Row(checked, i), Row(outcomes, i));
      }
      i := i + 1;
    }
    assert recs[..i - 1] == recs;
  }

  /** Whether a record used `tool`: `h.get("has_drive")` or `h.get("has_notion")`. */
  function Used(rec: HistoryRecord, tool: Tool): bool {
    match tool
    case Drive => rec.hasDrive
    case Notion => rec.hasNotion
  }

  /** `sum(1 for h in history if ...)`: the number of records that used `tool`. */
  function UsageCount(h: seq<HistoryRecord>, tool: Tool): (n: nat)
    ensures n <= |h|
    decreases |h|
  {
    if h == [] then 0
    else UsageCount(h[..|h| - 1], tool) + (if Used(h[|h| - 1], tool) then 1 else 0)
  }

  /** The analytics line: total, Drive and Notion counts. */
  datatype Analytics = Analytics(total: nat, driveCount: nat, notionCount: nat)

  function Analyze(h: seq<HistoryRecord>): (a: Analytics)
    ensures a.driveCount <= a.total && a.notionCount <= a.total
  {
    Analytics(|h|, UsageCount(h, Drive), UsageCount(h, Notion))
  }

  /** Counts add up over concatenated histories. */
  lemma {:induction false} UsageCountAppend(g: seq<HistoryRecord>, h: seq<HistoryRecord>, tool: Tool)
    ensures UsageCount(g + h, tool) == UsageCount(g, tool) + UsageCount(h, tool)
    decreases |h|
  {
    if h == [] {
      assert g + h == g;
    } else {
      var n := |h| - 1;
      assert (g + h)[..|g + h| - 1] == g + h[..n];
      UsageCountAppend(g, h[..n], tool);
    }
  }

  /** Saving a record raises a count by one exactly when the record used the tool. */
  lemma UsageAfterSave(h: seq<HistoryRecord>, rec: HistoryRecord, tool: Tool)
    ensures UsageCount(h + [rec], tool) == UsageCount(h, tool) + (if Used(rec, tool) then 1 else 0)
  {
    UsageCountAppend(h, [rec], tool);
    assert [rec][..0] == [];
  }

  /** When every record names exactly one tool, as those made from checked forms
      do, the Drive and Notion counts add up to the total. */
  lemma {:induction false} UsagePartition(h: seq<HistoryRecord>)
    requires forall i | 0 <= i < |h| :: h[i].hasDrive != h[i].hasNotion
    ensures UsageCount(h, Drive) + UsageCount(h, Notion) == |h|
    decreases |h|
  {
    if h != [] {
      UsagePartition(h[..|h| - 1]);
    }
  }
}
