/** The local stores of `utils.py`: one progress file per learning goal, named by
    the goal's hash, and one history file holding every generated path. A file is
    missing, holds a readable JSON value, or holds something `json.load` rejects;
    the outcome of each write is an input of the model. */
module Stores {
  import opened Text

  /** What a store file holds. */
  datatype FileState<T> = Missing | Readable(value: T) | Unreadable

  /** How `open(path, "w")` followed by `json.dump(...)` ends: the file is written,
      it cannot be opened (nothing changes), or the dump fails after the file was
      truncated (what is left is not valid JSON). */
  datatype WriteOutcome = Written | OpenFailed | DumpFailed

  /** The value a load returns: the stored value, or `empty` when the file is
      missing or cannot be read. */
  function LoadOr<T>(f: FileState<T>, empty: T): (v: T)
    ensures f.Readable? || v == empty
  {
    if f.Readable? then f.value else empty
  }

  /** The file after a write of `v`. */
  function AfterWrite<T>(f: FileState<T>, outcome: WriteOutcome, v: T): (g: FileState<T>)
    ensures outcome.Written? ==> LoadOr(g, v) == v
    ensures outcome.OpenFailed? ==> g == f
  {
    match outcome
    case Written => Readable(v)
    case OpenFailed => f
    case DumpFailed => Unreadable
  }

  /** One day's entry of a progress map: `{"completed": ..., "title": ..., "topic": ...}`.
      An entry read from a file may lack its "completed" key. */
  datatype ProgressEntry = ProgressEntry(completed: Option<bool>, title: string, topic: string)

  /** A progress map, keyed by "day_<n>". */
  type Progress = map<string, ProgressEntry>

  /** The progress files, indexed by the hash in their names; a hash with no entry
      has no file. */
  type ProgressFiles = map<int, FileState<Progress>>

  function FileAt(files: ProgressFiles, key: int): FileState<Progress> {
    if key in files then files[key] else Missing
  }

  /** The progress files after `save_progress` writes `p` to the file of `key`:
      only that file can change, and a failed write is swallowed. */
  function Saved(files: ProgressFiles, key: int, p: Progress, outcome: WriteOutcome): (r: ProgressFiles)
    ensures FileAt(r, key) == AfterWrite(FileAt(files, key), outcome, p)
    ensures forall j | j != key :: FileAt(r, j) == FileAt(files, j)
  {
    match outcome
    case Written => files[key := Readable(p)]
    case OpenFailed => files
    case DumpFailed => files[key := Unreadable]
  }

  /** Saving and then loading a goal gives back what was saved, when the write
      succeeded; after a failed dump the goal's progress reads as empty. */
  lemma SaveThenLoad(files: ProgressFiles, key: int, p: Progress, outcome: WriteOutcome)
    ensures outcome.Written? ==> LoadOr(FileAt(Saved(files, key, p, outcome), key), map[]) == p
    ensures outcome.DumpFailed? ==> LoadOr(FileAt(Saved(files, key, p, outcome), key), map[]) == map[]
  {
  }

  /** `load_progress` and `save_progress`. The file of a goal is named by Python's
      `hash(user_goal)`, which is randomized per process; it is the opaque function
      `keyOf` here, so two goals with the same hash share one file. */
  class ProgressStore {
    const keyOf: string -> int
    var files: ProgressFiles

    constructor (keyOf: string -> int, files: ProgressFiles)
      ensures this.keyOf == keyOf && this.files == files
    {
      this.keyOf := keyOf;
      this.files := files;
    }

    /** `load_progress(goal)`: the stored map, or an empty one when the file is
        missing or unreadable. */
    function Load(goal: string): (p: Progress)
      reads this
      ensures FileAt(files, keyOf(goal)).Readable? || p == map[]
    {
      LoadOr(FileAt(files, keyOf(goal)), map[])
    }

    /** `save_progress(goal, p)`: errors are swallowed. A successful save is read
        back by every goal sharing the hash; no other file changes. */
    method Save(goal: string, p: Progress, outcome: WriteOutcome)
      modifies this
      ensures files == Saved(old(files), keyOf(goal), p, outcome)
      ensures outcome.Written? ==> forall g | keyOf(g) == keyOf(goal) :: Load(g) == p
      ensures forall g | keyOf(g) != keyOf(goal) :: Load(g) == old(Load(g))
    {
      files := Saved(files, keyOf(goal), p, outcome);
    }
  }

  /** A history record, as `app.py` builds it. */
  datatype HistoryRecord = HistoryRecord(
    timestamp: Option<string>, goal: string, tool: string,
    hasDrive: bool, hasNotion: bool, content: string)

  /** The history file after a series of `save_history_record` calls, each with
      its own write outcome. */
  function SavedRecords(f: FileState<seq<HistoryRecord>>, recs: seq<HistoryRecord>,
                        outcomes: seq<WriteOutcome>): FileState<seq<HistoryRecord>>
    requires |outcomes| == |recs|
    decreases |recs|
  {
    if recs == [] then f
    else
      var n := |recs| - 1;
      var before := SavedRecords(f, recs[..n], outcomes[..n]);
      AfterWrite(before, outcomes[n], LoadOr(before, []) + [recs[n]])
  }

  /** When every write succeeds, a series of saves keeps all records already
      stored, in order, and appends the new ones in the order they were saved. */
  lemma {:induction false} SavedRecordsAppend(f: FileState<seq<HistoryRecord>>, recs: seq<HistoryRecord>,
                                              outcomes: seq<WriteOutcome>)
    requires |outcomes| == |recs|
    requires forall i | 0 <= i < |outcomes| :: outcomes[i].Written?
    ensures LoadOr(SavedRecords(f, recs, outcomes), []) == LoadOr(f, []) + recs
    decreases |recs|
  {
    if recs != [] {
      var n := |recs| - 1;
      SavedRecordsAppend(f, recs[..n], outcomes[..n]);
      FrontLast(recs);
    } else {
      assert LoadOr(f, []) + recs == LoadOr(f, []);
    }
  }

  /** `load_history` and `save_history_record` over the history file. */
  class HistoryLog {
    var file: FileState<seq<HistoryRecord>>

    constructor (file: FileState<seq<HistoryRecord>>)
      ensures this.file == file
    {
      this.file := file;
    }

    /** `load_history()`: the stored list, or an empty one. */
    function Load(): (h: seq<HistoryRecord>)
      reads this
      ensures file.Readable? || h == []
    {
      LoadOr(file, [])
    }

    /** `save_history_record(rec)`: loads the history, appends `rec` and writes
        the list back. Unlike `save_progress`, a failed write is raised to the
        caller. An unreadable file is replaced by a history of `rec` alone. */
    method SaveRecord(rec: HistoryRecord, outcome: WriteOutcome) returns (raised: bool)
      modifies this
      ensures raised <==> !outcome.Written?
      ensures file == AfterWrite(old(file), outcome, old(Load()) + [rec])
      ensures !raised ==> Load() == old(Load()) + [rec]
      ensures !raised ==> |Load()| == |old(Load())| + 1 && Load()[|Load()| - 1] == rec
      ensures !raised ==> forall i | 0 <= i < |old(Load())| :: Load()[i] == old(Load())[i]
    {
      var history := Load();
      history := history + [rec];
      file := AfterWrite(file, outcome, history);
      raised := !outcome.Written?;
    }
  }
}
